/** main.py: the survival-rate pipeline over the Vesuvius data set. The CSV
    header is stripped and checked, the outcome column is coerced and only
    0/1 outcomes are kept, the numeric covariates are coerced, ten figures
    are drawn one after another and a recap of rates is assembled. A figure
    is modelled by what it shows (labels and bar heights); the first
    exception ends the run, and the figures saved before it remain. */
module SurvivalAnalysis {
  import opened Results
  import opened Text
  import opened Frames
  import opened Sequences
  import opened Stats
  import opened Grouping
  import opened Binning
  import opened Dicts

  /** The columns `main` insists on. */
  const Required: seq<string> :=
    ["Survived", "Sex", "Age", "Status", "DistanceFromV", "WealthIndex", "ShelterAccess", "HasPet", "ReactionTime"]

  /** The covariates coerced to numbers after the outcome filter. */
  const NumericColumns: seq<string> :=
    ["Age", "DistanceFromV", "WealthIndex", "ReactionTime", "ShelterAccess", "HasPet"]

  /** Every column coerced to numbers, in the order `main` coerces them. */
  const Coerced: seq<string> := ["Survived"] + NumericColumns

  /** The age-band edges used by the age chart, the heat map and the recap. */
  const AgeEdges: seq<int> := [0, 10, 20, 30, 40, 50, 60, 70, 80]

  /** Why a run stops: the exception that ends `main`. */
  datatype Failure =
    | MissingColumns(names: seq<string>)   // ValueError from ensure_cols
    | BinningFailed(error: CutError)       // ValueError from pd.cut
    | NoDistanceEdges                      // IndexError from edges[-1]

  // ---------------------------------------------------------------------
  // Header: strip and check

  /** `[c.strip() for c in df.columns]` */
  function StripAll(columns: seq<string>): (r: seq<string>)
    ensures |r| == |columns|
    ensures forall i :: 0 <= i < |r| ==> r[i] == Strip(columns[i])
  {
    seq(|columns|, i requires 0 <= i < |columns| => Strip(columns[i]))
  }

  function Absent(columns: seq<string>): string -> bool
  {
    c => c !in columns
  }

  /** `[c for c in required if c not in df.columns]` */
  function MissingNames(columns: seq<string>, required: seq<string>): seq<string>
  {
    Filter(required, Absent(columns))
  }

  /** The missing names are exactly the required names absent from the
      header, listed in the order of `required`. */
  lemma MissingNamesSpec(columns: seq<string>, required: seq<string>)
    ensures forall c :: c in MissingNames(columns, required) <==> c in required && c !in columns
    ensures var ix := KeptIndices(required, Absent(columns));
      && |ix| == |MissingNames(columns, required)|
      && (forall k :: 0 <= k < |ix| ==> ix[k] < |required| && MissingNames(columns, required)[k] == required[ix[k]])
      && (forall k, l :: 0 <= k < l < |ix| ==> ix[k] < ix[l])
  {
    FilterMembers(required, Absent(columns));
  }

  /** `ensure_cols`: succeeds exactly when every required name is present;
      otherwise the error lists the missing ones, and there is at least one. */
  function EnsureCols(columns: seq<string>, required: seq<string>): (r: Result<(), Failure>)
    ensures r.Success? <==> forall c :: c in required ==> c in columns
    ensures r.Failure? ==>
      (&& r.error.MissingColumns? && r.error.names != []
       && forall c :: c in r.error.names <==> c in required && c !in columns)
  {
    MissingNamesSpec(columns, required);
    var m := MissingNames(columns, required);
    if m == [] then Success(()) else assert m[0] in m; Failure(MissingColumns(m))
  }

  // ---------------------------------------------------------------------
  // Coercion and the outcome filter

  /** Column `c` is the (first) column of one of `names`. */
  predicate CoercedAt(columns: seq<string>, names: seq<string>, c: nat)
  {
    c < |columns| && columns[c] in names && IndexOf(columns, columns[c]) == Some(c)
  }

  /** A row after `df[name] = pd.to_numeric(df[name], errors="coerce")` for
      every name in `names`. */
  function CoerceRow(columns: seq<string>, row: seq<Cell>, names: seq<string>, parse: Parser): (r: seq<Cell>)
    ensures |r| == |row|
  {
    seq(|row|, c requires 0 <= c < |row| =>
      if CoercedAt(columns, names, c) then ToNumeric(row[c], parse) else row[c])
  }

  /** Coercing one more cell of a row, the one at position `p`. */
  function CoerceCell(row: seq<Cell>, p: nat, parse: Parser): seq<Cell>
  {
    if p < |row| then row[p := ToNumeric(row[p], parse)] else row
  }

  /** `df[name] = pd.to_numeric(df[name], errors="coerce")` on a frame. */
  function CoerceColumn(f: Frame, name: string, parse: Parser): (g: Frame)
    requires name in f.columns
    ensures g.columns == f.columns && |g.rows| == |f.rows|
  {
    var p := IndexOf(f.columns, name).value;
    Frame(f.columns, seq(|f.rows|, i requires 0 <= i < |f.rows| => CoerceCell(f.rows[i], p, parse)))
  }

  /** Reading a coerced column gives the coerced cell. */
  lemma GetCoerced(columns: seq<string>, row: seq<Cell>, names: seq<string>, name: string, parse: Parser)
    requires name in names
    ensures Get(columns, CoerceRow(columns, row, names, parse), name) == ToNumeric(Get(columns, row, name), parse)
  {
  }

  /** Coercing the column of `name` after those of `names` is coercing
      `names + [name]`; coercing a column twice changes nothing more. */
  lemma CoerceRowStep(columns: seq<string>, row: seq<Cell>, names: seq<string>, name: string, parse: Parser)
    requires name in columns
    ensures CoerceCell(CoerceRow(columns, row, names, parse), IndexOf(columns, name).value, parse)
         == CoerceRow(columns, row, names + [name], parse)
  {
    var p := IndexOf(columns, name).value;
    var a := CoerceCell(CoerceRow(columns, row, names, parse), p, parse);
    var b := CoerceRow(columns, row, names + [name], parse);
    forall c | 0 <= c < |row| ensures a[c] == b[c] {
      if c == p {
        ToNumericIdempotent(row[c], parse);
      } else {
        assert CoercedAt(columns, names + [name], c) == CoercedAt(columns, names, c);
      }
    }
  }

  lemma CoerceRowNone(columns: seq<string>, row: seq<Cell>, parse: Parser)
    ensures CoerceRow(columns, row, [], parse) == row
  {
  }

  predicate IsBinaryCell(c: Cell)
  {
    c == Num(0.0) || c == Num(1.0)
  }

  /** `df["Survived"].isin([0, 1])` on a coerced frame. */
  function KeepOutcome(columns: seq<string>): seq<Cell> -> bool
  {
    row => IsBinaryCell(Get(columns, row, "Survived"))
  }

  /** The same test stated on a raw row: its outcome, once coerced, is 0 or 1. */
  function RawKeep(columns: seq<string>, parse: Parser): seq<Cell> -> bool
  {
    row => IsBinaryCell(ToNumeric(Get(columns, row, "Survived"), parse))
  }

  /** The positions of the raw rows that survive the outcome filter. */
  function OutcomeRows(columns: seq<string>, rows: seq<seq<Cell>>, parse: Parser): seq<nat>
  {
    KeptIndices(rows, RawKeep(columns, parse))
  }

  function CoerceAll(columns: seq<string>, rows: seq<seq<Cell>>, names: seq<string>, parse: Parser)
    : (r: seq<seq<Cell>>)
    ensures |r| == |rows|
    ensures forall i :: 0 <= i < |rows| ==> r[i] == CoerceRow(columns, rows[i], names, parse)
  {
    seq(|rows|, i requires 0 <= i < |rows| => CoerceRow(columns, rows[i], names, parse))
  }

  /** The rows at positions `ix`, each coerced on `names`. */
  function Kept(columns: seq<string>, rows: seq<seq<Cell>>, ix: seq<nat>, names: seq<string>, parse: Parser)
    : (r: seq<seq<Cell>>)
    ensures |r| == |ix|
    ensures forall k :: 0 <= k < |ix| && ix[k] < |rows| ==> r[k] == CoerceRow(columns, rows[ix[k]], names, parse)
  {
    seq(|ix|, k requires 0 <= k < |ix| =>
      if ix[k] < |rows| then CoerceRow(columns, rows[ix[k]], names, parse) else [])
  }

  /** Coercing the outcome and then keeping the 0/1 rows is keeping the rows
      whose coerced outcome is 0/1, in their order, each coerced. */
  lemma FilterAfterCoercion(columns: seq<string>, rows: seq<seq<Cell>>, parse: Parser)
    ensures Filter(CoerceAll(columns, rows, ["Survived"], parse), KeepOutcome(columns))
         == Kept(columns, rows, OutcomeRows(columns, rows, parse), ["Survived"], parse)
  {
    var coerce := row => CoerceRow(columns, row, ["Survived"], parse);
    forall row ensures KeepOutcome(columns)(coerce(row)) == RawKeep(columns, parse)(row) {
      GetCoerced(columns, row, ["Survived"], "Survived", parse);
    }
    assert CoerceAll(columns, rows, ["Survived"], parse) == Map(rows, coerce);
    FilterMap(rows, coerce, RawKeep(columns, parse), KeepOutcome(columns));
    var ix := OutcomeRows(columns, rows, parse);
    var kept := Filter(rows, RawKeep(columns, parse));
    assert forall k :: 0 <= k < |ix| ==> ix[k] < |rows| && kept[k] == rows[ix[k]];
    assert Map(kept, coerce) == Kept(columns, rows, ix, ["Survived"], parse);
  }

  /** The first stage of preparation, lines 250-251. */
  lemma OutcomeStage(columns: seq<string>, rows: seq<seq<Cell>>, parse: Parser)
    requires "Survived" in columns
    ensures Filter(CoerceColumn(Frame(columns, rows), "Survived", parse).rows, KeepOutcome(columns))
         == Kept(columns, rows, OutcomeRows(columns, rows, parse), ["Survived"], parse)
  {
    var f := CoerceColumn(Frame(columns, rows), "Survived", parse);
    forall i | 0 <= i < |rows|
      ensures f.rows[i] == CoerceRow(columns, rows[i], ["Survived"], parse)
    {
      CoerceRowNone(columns, rows[i], parse);
      CoerceRowStep(columns, rows[i], [], "Survived", parse);
    }
    assert f.rows == CoerceAll(columns, rows, ["Survived"], parse);
    FilterAfterCoercion(columns, rows, parse);
  }

  /** One turn of the loop at lines 252-253: coercing one more column of the
      kept rows. */
  lemma CoerceStage(columns: seq<string>, rows: seq<seq<Cell>>, ix: seq<nat>, done: seq<string>, name: string, parse: Parser)
    requires name in columns
    requires forall k :: 0 <= k < |ix| ==> ix[k] < |rows|
    ensures CoerceColumn(Frame(columns, Kept(columns, rows, ix, done, parse)), name, parse)
         == Frame(columns, Kept(columns, rows, ix, done + [name], parse))
  {
    var f := CoerceColumn(Frame(columns, Kept(columns, rows, ix, done, parse)), name, parse);
    forall k | 0 <= k < |ix|
      ensures f.rows[k] == CoerceRow(columns, rows[ix[k]], done + [name], parse)
    {
      CoerceRowStep(columns, rows[ix[k]], done, name, parse);
    }
  }

  /** What `main` has made of the CSV frame before the first figure: the
      header stripped and checked, then the raw rows whose coerced outcome is
      0 or 1, in file order, with all seven numeric columns coerced. */
  function Prepared(raw: Frame, parse: Parser): Result<Frame, Failure>
  {
    var columns := StripAll(raw.columns);
    match EnsureCols(columns, Required)
    case Failure(e) => Failure(e)
    case Success(_) => Success(Frame(columns, Kept(columns, raw.rows, OutcomeRows(columns, raw.rows, parse), Coerced, parse)))
  }

  /** Once `ensure_cols` has passed, every coerced column is present. */
  lemma RequiredPresent(columns: seq<string>)
    requires forall c :: c in Required ==> c in columns
    ensures "Survived" in columns
    ensures forall j :: 0 <= j < |NumericColumns| ==> NumericColumns[j] in columns
  {
    assert Required[0] == "Survived";
    forall j | 0 <= j < |NumericColumns| ensures NumericColumns[j] in columns {
      assert NumericColumns[j] in Required;
    }
  }

  lemma PreparedValue(raw: Frame, parse: Parser)
    requires EnsureCols(StripAll(raw.columns), Required).Success?
    ensures var columns := StripAll(raw.columns);
      Prepared(raw, parse) == Success(Frame(columns, Kept(columns, raw.rows, OutcomeRows(columns, raw.rows, parse), Coerced, parse)))
  {
  }

  /** main.py lines 242-247: strip the header and check it, then convert. */
  method Prepare(raw: Frame, parse: Parser) returns (r: Result<Frame, Failure>)
    ensures r == Prepared(raw, parse)
  {
    var df := Frame(StripAll(raw.columns), raw.rows);
    var check := EnsureCols(df.columns, Required);
    if check.Failure? {
      return Failure(check.error);
    }
    RequiredPresent(df.columns);
    df := Convert(df, parse);
    PreparedValue(raw, parse);
    return Success(df);
  }

  /** main.py lines 250-253 on a checked frame: coerce the outcome, keep the
      0/1 rows, then coerce the covariates one column at a time. */
  method Convert(f: Frame, parse: Parser) returns (df: Frame)
    requires "Survived" in f.columns
    requires forall j :: 0 <= j < |NumericColumns| ==> NumericColumns[j] in f.columns
    ensures df == Frame(f.columns, Kept(f.columns, f.rows, OutcomeRows(f.columns, f.rows, parse), Coerced, parse))
  {
    ghost var ix := OutcomeRows(f.columns, f.rows, parse);
    OutcomeStage(f.columns, f.rows, parse);
    df := CoerceColumn(f, "Survived", parse);
    df := Frame(df.columns, Filter(df.rows, KeepOutcome(df.columns)));
    df := CoerceColumns(df, NumericColumns, f.rows, ix, ["Survived"], parse);
  }

  /** The loop at lines 252-253: coerce each of `names`, in order, on rows
      already coerced on `done`. */
  method CoerceColumns(df: Frame, names: seq<string>, ghost rows: seq<seq<Cell>>, ghost ix: seq<nat>,
                       ghost done: seq<string>, parse: Parser)
    returns (r: Frame)
    requires forall j :: 0 <= j < |names| ==> names[j] in df.columns
    requires forall k :: 0 <= k < |ix| ==> ix[k] < |rows|
    requires df == Frame(df.columns, Kept(df.columns, rows, ix, done, parse))
    ensures r == Frame(df.columns, Kept(df.columns, rows, ix, done + names, parse))
  {
    r := df;
    assert done + names[..0] == done;
    for j := 0 to |names|
      invariant r == Frame(df.columns, Kept(df.columns, rows, ix, done + names[..j], parse))
    {
      CoerceStage(df.columns, rows, ix, done + names[..j], names[j], parse);
      assert done + names[..j] + [names[j]] == done + names[..j + 1];
      r := CoerceColumn(r, names[j], parse);
    }
    assert names[..|names|] == names;
  }

  /** A prepared frame: every outcome is 0 or 1 and every numeric column
      holds numbers or NaN. */
  ghost predicate IsPrepared(df: Frame)
  {
    forall k :: 0 <= k < |df.rows| ==>
      && IsBinaryCell(Get(df.columns, df.rows[k], "Survived"))
      && forall name :: name in Coerced ==> !Get(df.columns, df.rows[k], name).Text?
  }

  /** Preparation fails exactly when a required column is missing after
      stripping; otherwise the kept rows are, in file order, exactly the raw
      rows whose coerced outcome is 0 or 1, and the result is prepared. */
  lemma PreparedSpec(raw: Frame, parse: Parser)
    ensures var columns := StripAll(raw.columns);
      && (Prepared(raw, parse).Success? <==> forall c :: c in Required ==> c in columns)
      && (Prepared(raw, parse).Failure? ==>
            Prepared(raw, parse).error == MissingColumns(MissingNames(columns, Required)))
    ensures Prepared(raw, parse).Success? ==>
      var df := Prepared(raw, parse).value;
      var ix := OutcomeRows(df.columns, raw.rows, parse);
      && df.columns == StripAll(raw.columns)
      && IsPrepared(df)
      && |df.rows| == |ix|
      && (forall k :: 0 <= k < |ix| ==> ix[k] < |raw.rows| && df.rows[k] == CoerceRow(df.columns, raw.rows[ix[k]], Coerced, parse))
      && (forall k, l :: 0 <= k < l < |ix| ==> ix[k] < ix[l])
      && (forall i :: 0 <= i < |raw.rows| ==>
            (IsBinaryCell(ToNumeric(Get(df.columns, raw.rows[i], "Survived"), parse)) <==> i in ix))
  {
    if Prepared(raw, parse).Success? {
      var df := Prepared(raw, parse).value;
      var ix := OutcomeRows(df.columns, raw.rows, parse);
      forall k | 0 <= k < |df.rows|
        ensures IsBinaryCell(Get(df.columns, df.rows[k], "Survived"))
        ensures forall name :: name in Coerced ==> !Get(df.columns, df.rows[k], name).Text?
      {
        assert RawKeep(df.columns, parse)(raw.rows[ix[k]]);
        GetCoerced(df.columns, raw.rows[ix[k]], Coerced, "Survived", parse);
        forall name | name in Coerced ensures !Get(df.columns, df.rows[k], name).Text? {
          GetCoerced(df.columns, raw.rows[ix[k]], Coerced, name, parse);
        }
      }
      forall i | 0 <= i < |raw.rows|
        ensures IsBinaryCell(ToNumeric(Get(df.columns, raw.rows[i], "Survived"), parse)) <==> i in ix
      {
        assert RawKeep(df.columns, parse)(raw.rows[i]) == IsBinaryCell(ToNumeric(Get(df.columns, raw.rows[i], "Survived"), parse));
      }
    }
  }

  // ---------------------------------------------------------------------
  // Reading a prepared frame

  /** A row's outcome: the number in its `Survived` cell, which is 0 or 1
      on a prepared frame (the fallback 0 is never taken there). */
  function Outcome(columns: seq<string>, row: seq<Cell>): real
  {
    match Get(columns, row, "Survived")
    case Num(x) => x
    case _ => 0.0
  }

  /** `df["Survived"]` */
  function Outcomes(df: Frame): (o: seq<real>)
    ensures |o| == |df.rows|
  {
    seq(|df.rows|, i requires 0 <= i < |df.rows| => Outcome(df.columns, df.rows[i]))
  }

  lemma OutcomesBinary(df: Frame)
    requires IsPrepared(df)
    ensures Binary(Outcomes(df))
  {
  }

  /** `df[col]` of a categorical column: each row's label, NaN as `None`. */
  function TextColumn(df: Frame, col: string): (v: seq<Option<string>>)
    ensures |v| == |df.rows|
  {
    seq(|df.rows|, i requires 0 <= i < |df.rows| => TextAt(df.columns, df.rows[i], col))
  }

  /** `df[col]` of a numeric column: each row's number, NaN as `None`. */
  function NumColumn(df: Frame, col: string): (v: seq<Option<real>>)
    ensures |v| == |df.rows|
  {
    seq(|df.rows|, i requires 0 <= i < |df.rows| => NumAt(df.columns, df.rows[i], col))
  }

  /** `df.dropna(subset=[col])`: the rows with a value, each as its value
      and its outcome, in row order. */
  function Pairs<L>(vals: seq<Option<L>>, outs: seq<real>): (r: seq<(L, real)>)
    requires |vals| == |outs|
    ensures |r| <= |vals|
  {
    if vals == [] then []
    else
      var n := |vals| - 1;
      Pairs(vals[..n], outs[..n]) + if vals[n].Some? then [(vals[n].value, outs[n])] else []
  }

  /** Every pair comes from a row with a value: the row it was taken from. */
  lemma {:induction false} PairsSound<L>(vals: seq<Option<L>>, outs: seq<real>, k: nat) returns (i: nat)
    requires |vals| == |outs| && k < |Pairs(vals, outs)|
    ensures i < |vals| && vals[i] == Some(Pairs(vals, outs)[k].0) && Pairs(vals, outs)[k].1 == outs[i]
  {
    var n := |vals| - 1;
    var front := Pairs(vals[..n], outs[..n]);
    assert Pairs(vals, outs) == front + if vals[n].Some? then [(vals[n].value, outs[n])] else [];
    if k < |front| {
      i := PairsSound(vals[..n], outs[..n], k);
      assert vals[..n][i] == vals[i] && outs[..n][i] == outs[i];
    } else {
      i := n;
    }
  }

  /** Every row with a value contributes its pair. */
  lemma {:induction false} PairsComplete<L>(vals: seq<Option<L>>, outs: seq<real>, i: nat) returns (k: nat)
    requires |vals| == |outs| && i < |vals| && vals[i].Some?
    ensures k < |Pairs(vals, outs)| && Pairs(vals, outs)[k] == (vals[i].value, outs[i])
  {
    var n := |vals| - 1;
    var front := Pairs(vals[..n], outs[..n]);
    assert Pairs(vals, outs) == front + if vals[n].Some? then [(vals[n].value, outs[n])] else [];
    if i < n {
      assert vals[..n][i] == vals[i] && outs[..n][i] == outs[i];
      k := PairsComplete(vals[..n], outs[..n], i);
    } else {
      k := |front|;
    }
  }

  /** `dropna` leaves nothing exactly when every value is NaN. */
  lemma PairsEmpty<L>(vals: seq<Option<L>>, outs: seq<real>)
    requires |vals| == |outs|
    ensures Pairs(vals, outs) == [] <==> forall i :: 0 <= i < |vals| ==> vals[i].None?
  {
    if Pairs(vals, outs) != [] {
      var i := PairsSound(vals, outs, 0);
    }
    if exists i :: 0 <= i < |vals| && vals[i].Some? {
      var i :| 0 <= i < |vals| && vals[i].Some?;
      var k := PairsComplete(vals, outs, i);
    }
  }

  lemma PairsBinary<L>(vals: seq<Option<L>>, outs: seq<real>)
    requires |vals| == |outs| && Binary(outs)
    ensures BinaryOutcomes(Pairs(vals, outs))
  {
    var r := Pairs(vals, outs);
    forall k | 0 <= k < |r| ensures r[k].1 == 0.0 || r[k].1 == 1.0 {
      var i := PairsSound(vals, outs, k);
    }
  }

  /** A value has rows after `dropna` exactly when some row carries it. */
  lemma PairsKeys<L>(vals: seq<Option<L>>, outs: seq<real>, x: L)
    requires |vals| == |outs|
    ensures x in Keys(Pairs(vals, outs)) <==> Some(x) in vals
  {
    var r := Pairs(vals, outs);
    if x in Keys(r) {
      var k :| 0 <= k < |r| && Keys(r)[k] == x;
      var i := PairsSound(vals, outs, k);
    }
    if Some(x) in vals {
      var i :| 0 <= i < |vals| && vals[i] == Some(x);
      var k := PairsComplete(vals, outs, i);
      assert Keys(r)[k] == x;
    }
  }

  /** Some value of the column lies in `[lo, hi)`. */
  ghost predicate SomeIn(vals: seq<Option<real>>, lo: real, hi: real)
  {
    exists i :: 0 <= i < |vals| && vals[i].Some? && lo <= vals[i].value < hi
  }

  lemma PairsInRange(vals: seq<Option<real>>, outs: seq<real>, lo: real, hi: real)
    requires |vals| == |outs|
    ensures SomeIn(Present(Pairs(vals, outs)), lo, hi) <==> SomeIn(vals, lo, hi)
  {
    var r := Pairs(vals, outs);
    var p := Present(r);
    if SomeIn(p, lo, hi) {
      var j :| 0 <= j < |p| && p[j].Some? && lo <= p[j].value < hi;
      var i := PairsSound(vals, outs, j);
      assert vals[i].Some? && lo <= vals[i].value < hi;
    }
    if SomeIn(vals, lo, hi) {
      var i :| 0 <= i < |vals| && vals[i].Some? && lo <= vals[i].value < hi;
      var j := PairsComplete(vals, outs, i);
      assert p[j].Some? && lo <= p[j].value < hi;
    }
  }

  /** `df.dropna(subset=[col])` on a categorical column, as (label, outcome) pairs. */
  function LabelledOutcomes(df: Frame, col: string): seq<(string, real)>
  {
    Pairs(TextColumn(df, col), Outcomes(df))
  }

  /** `df.dropna(subset=[col])` on a numeric column, as (value, outcome) pairs. */
  function NumericOutcomes(df: Frame, col: string): seq<(real, real)>
  {
    Pairs(NumColumn(df, col), Outcomes(df))
  }

  function Values(tmp: seq<(real, real)>): (v: seq<real>)
    ensures |v| == |tmp| && forall k :: 0 <= k < |tmp| ==> v[k] == tmp[k].0
  {
    seq(|tmp|, k requires 0 <= k < |tmp| => tmp[k].0)
  }

  function Present(tmp: seq<(real, real)>): (v: seq<Option<real>>)
    ensures |v| == |tmp| && forall k :: 0 <= k < |tmp| ==> v[k] == Some(tmp[k].0)
  {
    seq(|tmp|, k requires 0 <= k < |tmp| => Some(tmp[k].0))
  }

  function Seconds<L>(tmp: seq<(L, real)>): (o: seq<real>)
    ensures |o| == |tmp| && forall k :: 0 <= k < |tmp| ==> o[k] == tmp[k].1
  {
    seq(|tmp|, k requires 0 <= k < |tmp| => tmp[k].1)
  }

  /** Row `i`'s outcome under category `codes[i]`; rows without a category
      (NaN code) are left out, as `groupby` leaves them out. */
  function CodedOutcomes(codes: seq<Option<nat>>, outcomes: seq<real>): (r: seq<(nat, real)>)
  {
    if codes == [] || outcomes == [] then []
    else
      (if codes[0].Some? then [(codes[0].value, outcomes[0])] else [])
      + CodedOutcomes(codes[1..], outcomes[1..])
  }

  /** Some row that has an outcome is coded `c`. */
  ghost predicate Coded(codes: seq<Option<nat>>, outcomes: seq<real>, c: nat)
  {
    exists i :: 0 <= i < |codes| && i < |outcomes| && codes[i] == Some(c)
  }

  /** Category `c` has rows exactly when some row is coded `c`. */
  lemma {:induction false} CodedKeys(codes: seq<Option<nat>>, outcomes: seq<real>, c: nat)
    ensures c in Keys(CodedOutcomes(codes, outcomes)) <==> Coded(codes, outcomes, c)
  {
    if codes != [] && outcomes != [] {
      CodedKeys(codes[1..], outcomes[1..], c);
      CodedStep(codes, outcomes, c);
      var head: seq<(nat, real)> := if codes[0].Some? then [(codes[0].value, outcomes[0])] else [];
      var rest := CodedOutcomes(codes[1..], outcomes[1..]);
      assert Keys(head + rest) == Keys(head) + Keys(rest);
      assert c in Keys(head) <==> codes[0] == Some(c);
    }
  }

  /** Peeling off the first row of `Coded`. */
  lemma CodedStep(codes: seq<Option<nat>>, outcomes: seq<real>, c: nat)
    requires codes != [] && outcomes != []
    ensures Coded(codes, outcomes, c) <==> codes[0] == Some(c) || Coded(codes[1..], outcomes[1..], c)
  {
    if Coded(codes, outcomes, c) && codes[0] != Some(c) {
      var i :| 0 <= i < |codes| && i < |outcomes| && codes[i] == Some(c);
      assert codes[1..][i - 1] == Some(c);
    }
    if Coded(codes[1..], outcomes[1..], c) {
      var i :| 0 <= i < |codes[1..]| && i < |outcomes[1..]| && codes[1..][i] == Some(c);
      assert codes[i + 1] == Some(c);
    }
  }

  lemma {:induction false} CodedBinary(codes: seq<Option<nat>>, outcomes: seq<real>)
    requires Binary(outcomes)
    ensures BinaryOutcomes(CodedOutcomes(codes, outcomes))
  {
    if codes != [] && outcomes != [] {
      assert Binary(outcomes[1..]);
      CodedBinary(codes[1..], outcomes[1..]);
    }
  }

  /** The bars of a categorical chart: per category `0..n-1`, the mean
      outcome of its rows in percent, NaN for a category without rows. */
  function CodedHeights(codes: seq<Option<nat>>, outcomes: seq<real>, n: nat): seq<Option<real>>
  {
    PercentOrMissing(CategoryMeans(CodedOutcomes(codes, outcomes), n))
  }

  /** Bar heights from category means are percentages in [0, 100], and a
      bar is missing exactly when no row carries its category. */
  lemma CategoryHeights(codes: seq<Option<nat>>, outcomes: seq<real>, n: nat)
    requires Binary(outcomes)
    ensures var h := CodedHeights(codes, outcomes, n);
      && |h| == n
      && (forall c :: 0 <= c < n ==>
            (h[c].None? <==> !Coded(codes, outcomes, c)))
      && (forall c :: 0 <= c < n && h[c].Some? ==> 0.0 <= h[c].value <= 100.0)
  {
    var rows := CodedOutcomes(codes, outcomes);
    CodedBinary(codes, outcomes);
    CategoryMeansSpec(rows, n);
    forall c | 0 <= c < n
      ensures c in Keys(rows) <==> Coded(codes, outcomes, c)
    {
      CodedKeys(codes, outcomes, c);
    }
  }

  // ---------------------------------------------------------------------
  // The figures

  /** What a figure shows. Interval bars are labelled by pandas' interval
      objects, modelled by their edges. */
  datatype Chart =
    | Bars(file: string, labels: seq<string>, heights: seq<Option<real>>)
    | IntervalBars(file: string, edges: seq<real>, heights: seq<Option<real>>)
    | Heatmap(file: string, rowLabels: seq<string>, columnLabels: seq<string>, cells: seq<seq<Option<real>>>)

  /** `plot_overall`: one bar, the global rate. */
  function OverallChart(df: Frame): Chart
  {
    Bars("01_taux_global.png", ["Global"], [Rate(Outcomes(df))])
  }

  /** The global bar is the share of survivors in percent, and NaN only for
      a frame without rows. */
  lemma OverallChartSpec(df: Frame)
    requires Binary(Outcomes(df))
    ensures var h := OverallChart(df).heights;
      && |h| == 1
      && (h[0].None? <==> df.rows == [])
      && (h[0].Some? ==>
            && h[0].value == 100.0 * (CountOnes(Outcomes(df)) as real / |df.rows| as real)
            && 0.0 <= h[0].value <= 100.0)
  {
    if df.rows != [] {
      RateIsPercentOfOnes(Outcomes(df));
    }
  }

  /** `100 * df.groupby(col)["Survived"].mean()`: one rate per label present. */
  function RateTable(df: Frame, col: string): seq<(string, real)>
  {
    Percent(GroupMeans(LabelledOutcomes(df, col), StringLess))
  }

  function Heights(t: seq<(string, real)>): (h: seq<Option<real>>)
    ensures |h| == |t| && forall i :: 0 <= i < |t| ==> h[i] == Some(t[i].1)
  {
    seq(|t|, i requires 0 <= i < |t| => Some(t[i].1))
  }

  /** `plot_by_sex` and `plot_by_status`: nothing for a column that is all
      NaN, else the rate per label, highest first. */
  function RankedChart(df: Frame, col: string, file: string): Option<Chart>
  {
    if LabelledOutcomes(df, col) == [] then None
    else
      var t := SortByRateDescending(RateTable(df, col));
      Some(Bars(file, Keys(t), Heights(t)))
  }

  /** The rate table holds each label present once, ascending, with 100
      times the mean outcome of its rows, a percentage in [0, 100]. */
  lemma RateTableSpec(df: Frame, col: string)
    requires Binary(Outcomes(df))
    ensures var tmp := LabelledOutcomes(df, col);
      var t := RateTable(df, col);
      && StrictlySorted(Keys(t), StringLess)
      && (forall s :: s in Keys(t) <==> Some(s) in TextColumn(df, col))
      && (forall i :: 0 <= i < |t| ==>
            Select(tmp, t[i].0) != [] && t[i].1 == 100.0 * Average(Select(tmp, t[i].0)))
      && (forall i :: 0 <= i < |t| ==> 0.0 <= t[i].1 <= 100.0)
  {
    var tmp := LabelledOutcomes(df, col);
    StringLessIsStrictTotalOrder();
    PairsBinary(TextColumn(df, col), Outcomes(df));
    GroupMeansSpec(tmp, StringLess);
    forall s ensures s in Keys(tmp) <==> Some(s) in TextColumn(df, col) {
      PairsKeys(TextColumn(df, col), Outcomes(df), s);
    }
  }

  /** Bar charts whose bars are labels of `tmp`, each 100 times the mean
      outcome of that label's rows. */
  ghost predicate MeanBars(c: Chart, tmp: seq<(string, real)>)
  {
    && c.Bars? && |c.labels| == |c.heights|
    && forall i :: 0 <= i < |c.labels| ==>
         Select(tmp, c.labels[i]) != [] && c.heights[i] == Some(100.0 * Average(Select(tmp, c.labels[i])))
  }

  /** The bars drawn from a ranked rate table carry its facts over. */
  lemma BarsOfTable(t: seq<(string, real)>, tmp: seq<(string, real)>, file: string)
    requires DescendingByRate(t)
    requires forall i :: 0 <= i < |t| ==>
      Select(tmp, t[i].0) != [] && t[i].1 == 100.0 * Average(Select(tmp, t[i].0))
    ensures var c := Bars(file, Keys(t), Heights(t));
      && MeanBars(c, tmp)
      && (forall i, j :: 0 <= i < j < |c.heights| ==> c.heights[i].value >= c.heights[j].value)
  {
    BarsMean(t, tmp, file);
    BarsDescending(t, file);
  }

  lemma BarsMean(t: seq<(string, real)>, tmp: seq<(string, real)>, file: string)
    requires forall i :: 0 <= i < |t| ==>
      Select(tmp, t[i].0) != [] && t[i].1 == 100.0 * Average(Select(tmp, t[i].0))
    ensures MeanBars(Bars(file, Keys(t), Heights(t)), tmp)
  {
    var ks, hs := Keys(t), Heights(t);
    forall i | 0 <= i < |t|
      ensures Select(tmp, ks[i]) != [] && hs[i] == Some(100.0 * Average(Select(tmp, ks[i])))
    {
      assert ks[i] == t[i].0 && hs[i] == Some(t[i].1);
    }
  }

  lemma BarsDescending(t: seq<(string, real)>, file: string)
    requires DescendingByRate(t)
    ensures var c := Bars(file, Keys(t), Heights(t));
      forall i, j :: 0 <= i < j < |c.heights| ==> c.heights[i].value >= c.heights[j].value
  {
    var hs := Heights(t);
    assert forall i :: 0 <= i < |t| ==> hs[i].value == t[i].1;
  }

  /** The bars of the sex and status charts: every label present once,
      heights from the highest rate to the lowest, each bar 100 times the
      mean outcome of its label's rows; no chart when the column is all NaN. */
  lemma RankedChartSpec(df: Frame, col: string, file: string)
    requires Binary(Outcomes(df))
    ensures RankedChart(df, col, file).None? <==> forall i :: 0 <= i < |df.rows| ==> TextColumn(df, col)[i].None?
    ensures RankedChart(df, col, file).Some? ==>
      var c := RankedChart(df, col, file).value;
      && MeanBars(c, LabelledOutcomes(df, col))
      && (forall s :: s in c.labels <==> Some(s) in TextColumn(df, col))
      && (forall i, j :: 0 <= i < j < |c.heights| ==> c.heights[i].value >= c.heights[j].value)
      && (forall i :: 0 <= i < |c.heights| ==> 0.0 <= c.heights[i].value <= 100.0)
  {
    PairsEmpty(TextColumn(df, col), Outcomes(df));
    if RankedChart(df, col, file).Some? {
      var tmp := LabelledOutcomes(df, col);
      StringLessIsStrictTotalOrder();
      PairsBinary(TextColumn(df, col), Outcomes(df));
      RankedRatesSpec(tmp, StringLess);
      var t := SortByRateDescending(RateTable(df, col));
      BarsOfTable(t, tmp, file);
      forall s ensures s in Keys(tmp) <==> Some(s) in TextColumn(df, col) {
        PairsKeys(TextColumn(df, col), Outcomes(df), s);
      }
    }
  }

  // ---------------------------------------------------------------------
  // Banded charts: a numeric column cut into intervals

  /** Bars over the intervals of `bounds`: one per interval, missing exactly
      when no value of the column lies in it, otherwise a percentage. */
  ghost predicate BandHeights(h: seq<Option<real>>, vals: seq<Option<real>>, bounds: seq<real>)
  {
    && |h| + 1 == |bounds|
    && (forall i :: 0 <= i < |h| ==> (h[i].None? <==> !SomeIn(vals, bounds[i], bounds[i + 1])))
    && (forall i :: 0 <= i < |h| && h[i].Some? ==> 0.0 <= h[i].value <= 100.0)
  }

  /** The bars of a successful `pd.cut` of a column: one per interval, each
      missing exactly when no row falls in its interval. */
  lemma CutHeights(vals: seq<Option<real>>, outs: seq<real>, bins: seq<real>, labels: Option<seq<string>>)
    requires |vals| == |outs| && Binary(outs) && |bins| >= 1
    requires Cut(Present(Pairs(vals, outs)), bins, labels).Success?
    ensures var tmp := Pairs(vals, outs);
      var codes := Cut(Present(tmp), bins, labels).value;
      BandHeights(CodedHeights(codes, Seconds(tmp), |bins| - 1), vals, bins)
  {
    var tmp := Pairs(vals, outs);
    var values := Present(tmp);
    var codes := Cut(values, bins, labels).value;
    var n := |bins| - 1;
    PairsBinary(vals, outs);
    assert Binary(Seconds(tmp));
    CategoryHeights(codes, Seconds(tmp), n);
    forall i | 0 <= i < n
      ensures Coded(codes, Seconds(tmp), i) <==> SomeIn(vals, bins[i], bins[i + 1])
    {
      PairsInRange(vals, outs, bins[i], bins[i + 1]);
      CodedBand(values, Seconds(tmp), bins, labels, i);
    }
  }

  /** Band `i` of a successful cut holds a code exactly when some value lies in it. */
  lemma CodedBand(values: seq<Option<real>>, outcomes: seq<real>, bins: seq<real>, labels: Option<seq<string>>, i: nat)
    requires Cut(values, bins, labels).Success? && i + 1 < |bins| && |outcomes| == |values|
    ensures Coded(Cut(values, bins, labels).value, outcomes, i) <==> SomeIn(values, bins[i], bins[i + 1])
  {
    if SomeIn(values, bins[i], bins[i + 1]) {
      CodedBandFilled(values, outcomes, bins, labels, i);
    }
    if Coded(Cut(values, bins, labels).value, outcomes, i) {
      CodedBandOccupied(values, outcomes, bins, labels, i);
    }
  }

  lemma CodedBandFilled(values: seq<Option<real>>, outcomes: seq<real>, bins: seq<real>, labels: Option<seq<string>>, i: nat)
    requires Cut(values, bins, labels).Success? && i + 1 < |bins| && |outcomes| == |values|
    requires SomeIn(values, bins[i], bins[i + 1])
    ensures Coded(Cut(values, bins, labels).value, outcomes, i)
  {
    var codes := Cut(values, bins, labels).value;
    var j :| 0 <= j < |values| && values[j].Some? && bins[i] <= values[j].value < bins[i + 1];
    var c := codes[j];
    assert c.Some?;
    IntervalUnique(values[j].value, bins, c.value, i);
  }

  lemma CodedBandOccupied(values: seq<Option<real>>, outcomes: seq<real>, bins: seq<real>, labels: Option<seq<string>>, i: nat)
    requires Cut(values, bins, labels).Success? && i + 1 < |bins| && |outcomes| == |values|
    requires Coded(Cut(values, bins, labels).value, outcomes, i)
    ensures SomeIn(values, bins[i], bins[i + 1])
  {
    var codes := Cut(values, bins, labels).value;
    var j :| 0 <= j < |codes| && j < |outcomes| && codes[j] == Some(i);
    assert values[j].Some? && bins[i] <= values[j].value < bins[i + 1];
  }

  /** How the age bands are cut: as `cut_bins(..., last_label_plus=True)`
      does it, or, when `corrected`, with the open-ended band given its own
      label. */
  function AgeBands(values: seq<Option<real>>, edges: seq<int>, corrected: bool): Result<Binned, CutError>
  {
    if corrected then CutBinsOpenEnded(values, edges) else CutBinsResult(values, edges, true)
  }

  /** The edges of main.py, with the `10**9` sentinel, are increasing. */
  lemma AgeEdgesIncreasing()
    ensures StrictlyIncreasing(Bins(AgeEdges, true))
  {
  }

  /** `plot_by_agebins` */
  function AgeBinsChart(df: Frame, edges: seq<int>, corrected: bool): Result<Option<Chart>, Failure>
  {
    var tmp := NumericOutcomes(df, "Age");
    if tmp == [] then Success(None)
    else match AgeBands(Present(tmp), edges, corrected)
      case Failure(e) => Failure(BinningFailed(e))
      case Success(b) =>
        Success(Some(Bars("03_survie_par_tranche_age.png", b.labels,
          CodedHeights(b.codes, Seconds(tmp), |b.labels|))))
  }

  /** Every value is NaN. */
  predicate AllMissing<T>(vals: seq<Option<T>>)
  {
    forall i :: 0 <= i < |vals| ==> vals[i].None?
  }

  /** As written, the age chart raises as soon as one row has an age: with
      main.py's edges the error is 8 labels for 9 intervals. */
  lemma AgeBinsChartAsWritten(df: Frame, edges: seq<int>)
    ensures AllMissing(NumColumn(df, "Age")) ==> AgeBinsChart(df, edges, false) == Success(None)
    ensures !AllMissing(NumColumn(df, "Age")) && |edges| >= 1 ==> AgeBinsChart(df, edges, false).Failure?
    ensures !AllMissing(NumColumn(df, "Age")) ==>
      AgeBinsChart(df, AgeEdges, false) == Failure(BinningFailed(LabelCountMismatch(8, 9)))
  {
    var tmp := NumericOutcomes(df, "Age");
    PairsEmpty(NumColumn(df, "Age"), Outcomes(df));
    if tmp != [] {
      if |edges| >= 1 {
        CutBinsWithPlusFails(Present(tmp), edges);
      }
      AgeEdgesIncreasing();
      CutBinsWithPlusFails(Present(tmp), AgeEdges);
    }
  }

  /** With the label count corrected and increasing edges, the age chart has
      one bar per band, `[edges[i], edges[i+1])` and finally
      `[edges[-1], 10**9)`, missing exactly when no row's age is in it. */
  lemma AgeBinsChartCorrected(df: Frame, edges: seq<int>)
    requires Binary(Outcomes(df))
    requires |edges| >= 1 && StrictlyIncreasing(Bins(edges, true))
    ensures AgeBinsChart(df, edges, true).Success? && AgeBinsChart(df, edges, true).value.Some? ==>
      var c := AgeBinsChart(df, edges, true).value.value;
      && c.Bars? && c.labels == OpenEndedLabels(edges)
      && BandHeights(c.heights, NumColumn(df, "Age"), Bins(edges, true))
  {
    var tmp := NumericOutcomes(df, "Age");
    if tmp != [] {
      CutBinsOpenEndedSpec(Present(tmp), edges);
      CutHeights(NumColumn(df, "Age"), Outcomes(df), Bins(edges, true), Some(OpenEndedLabels(edges)));
    }
  }

  /** With the label count corrected and increasing edges, the age chart
      never fails, and it is drawn exactly when some row has an age. */
  lemma AgeBinsChartSucceeds(df: Frame, edges: seq<int>)
    requires |edges| >= 1 && StrictlyIncreasing(Bins(edges, true))
    ensures AgeBinsChart(df, edges, true).Success?
    ensures AgeBinsChart(df, edges, true).value.None? <==> AllMissing(NumColumn(df, "Age"))
  {
    PairsEmpty(NumColumn(df, "Age"), Outcomes(df));
    var tmp := NumericOutcomes(df, "Age");
    if tmp != [] {
      CutBinsOpenEndedSpec(Present(tmp), edges);
    }
  }

  // ---------------------------------------------------------------------
  // Distance

  /** `plot_by_distance` */
  function DistanceChart(df: Frame): Result<Option<Chart>, Failure>
  {
    var tmp := NumericOutcomes(df, "DistanceFromV");
    if tmp == [] then Success(None)
    else
      var mx := Max(Values(tmp));
      var step := DistanceStep(mx);
      match DistanceEdges(mx, step)
      case Failure(_) => Failure(NoDistanceEdges)
      case Success(edges) =>
        match Cut(Present(tmp), edges, None)
        case Failure(e) => Failure(BinningFailed(e))
        case Success(codes) =>
          Success(Some(IntervalBars("05_survie_par_distance.png", edges,
            CodedHeights(codes, Seconds(tmp), |edges| - 1))))
  }

  /** Every distance is at most `-2 - 1e-9`. */
  ghost predicate AllFarBelowZero(vals: seq<Option<real>>)
  {
    forall i :: 0 <= i < |vals| && vals[i].Some? ==> vals[i].value + Epsilon <= -2.0
  }

  /** The distance chart never fails in `pd.cut`; it fails only on the
      `edges[-1]` of an empty edge list, which needs every distance to be
      at most `-2 - 1e-9`. */
  lemma DistanceChartFailure(df: Frame)
    ensures DistanceChart(df).Failure? ==>
      && DistanceChart(df) == Failure(NoDistanceEdges)
      && NumericOutcomes(df, "DistanceFromV") != []
      && AllFarBelowZero(NumColumn(df, "DistanceFromV"))
  {
    var vals := NumColumn(df, "DistanceFromV");
    var tmp := NumericOutcomes(df, "DistanceFromV");
    if tmp != [] {
      var mx := Max(Values(tmp));
      var step := DistanceStep(mx);
      DistanceEdgesFail(mx, step);
      if DistanceEdges(mx, step).Success? {
        DistanceEdgesSpec(mx, step);
        var edges := DistanceEdges(mx, step).value;
        assert NonDecreasing(edges);
      } else {
        forall i | 0 <= i < |vals| && vals[i].Some? ensures vals[i].value + Epsilon <= -2.0 {
          var j := PairsComplete(vals, Outcomes(df), i);
          assert Values(tmp)[j] == vals[i].value;
        }
      }
    }
  }

  /** Conversely, when every distance is at most `-2 - 1e-9` and rounding
      keeps negative numbers at or below 2, the chart raises IndexError. */
  lemma DistanceChartCrashes(df: Frame)
    requires NumericOutcomes(df, "DistanceFromV") != []
    requires AllFarBelowZero(NumColumn(df, "DistanceFromV"))
    ensures DistanceChart(df) == Failure(NoDistanceEdges)
  {
    var vals := NumColumn(df, "DistanceFromV");
    var tmp := NumericOutcomes(df, "DistanceFromV");
    var mx := Max(Values(tmp));
    var k :| 0 <= k < |tmp| && Values(tmp)[k] == mx;
    var i := PairsSound(vals, Outcomes(df), k);
    assert mx + Epsilon <= -2.0;
    var step := DistanceStep(mx);
    assert step == 2.0;
    DistanceEdgesFail(mx, step);
  }

  /** `v` lies in one of the intervals of `edges`. */
  ghost predicate SomeBand(edges: seq<real>, v: real)
  {
    exists b :: 0 <= b < |edges| - 1 && edges[b] <= v < edges[b + 1]
  }

  /** The edges of a drawn distance chart: `np.arange` from 0 by a
      positive step, past the largest distance. */
  lemma DistanceChartEdges(df: Frame) returns (mx: real, step: real)
    requires DistanceChart(df).Success? && DistanceChart(df).value.Some?
    ensures var tmp := NumericOutcomes(df, "DistanceFromV");
      && tmp != [] && mx == Max(Values(tmp)) && step > 0.0
      && DistanceEdges(mx, step).Success?
      && var edges := DistanceEdges(mx, step).value;
      && Cut(Present(tmp), edges, None).Success?
      && DistanceChart(df).value.value == IntervalBars("05_survie_par_distance.png", edges,
           CodedHeights(Cut(Present(tmp), edges, None).value, Seconds(tmp), |edges| - 1))
  {
    var tmp := NumericOutcomes(df, "DistanceFromV");
    assert tmp != [];
    mx := Max(Values(tmp));
    step := DistanceStep(mx);
    var e := DistanceEdges(mx, step);
    var edges := e.value;
    DistanceEdgesSpec(mx, step);
    assert NonDecreasing(edges);
    var cut := Cut(Present(tmp), edges, None);
    var c := DistanceChart(df).value.value;
    assert c.IntervalBars?;
    assert c.file == "05_survie_par_distance.png";
    assert c.edges == edges;
    assert c.heights == CodedHeights(cut.value, Seconds(tmp), |edges| - 1);
  }

  /** A drawn distance chart has increasing edges from 0 and one bar per
      interval, missing exactly when no distance lies in it. */
  lemma DistanceChartBars(df: Frame)
    requires Binary(Outcomes(df))
    ensures DistanceChart(df).Success? && DistanceChart(df).value.Some? ==>
      var c := DistanceChart(df).value.value;
      && c.IntervalBars?
      && StrictlyIncreasing(c.edges) && c.edges[0] == 0.0
      && BandHeights(c.heights, NumColumn(df, "DistanceFromV"), c.edges)
  {
    if DistanceChart(df).Success? && DistanceChart(df).value.Some? {
      var mx, step := DistanceChartEdges(df);
      DistanceEdgesSpec(mx, step);
      CutHeights(NumColumn(df, "DistanceFromV"), Outcomes(df), DistanceEdges(mx, step).value, None);
    }
  }

  /** Every non-negative distance falls in some interval of a drawn
      distance chart, so no such row is lost to NaN by the cut. */
  lemma DistanceChartCovers(df: Frame, i: nat)
    requires DistanceChart(df).Success? && DistanceChart(df).value.Some?
    requires i < |df.rows| && NumColumn(df, "DistanceFromV")[i].Some?
    requires NumColumn(df, "DistanceFromV")[i].value >= 0.0
    ensures SomeBand(DistanceChart(df).value.value.edges, NumColumn(df, "DistanceFromV")[i].value)
  {
    var vals := NumColumn(df, "DistanceFromV");
    var tmp := NumericOutcomes(df, "DistanceFromV");
    var mx, step := DistanceChartEdges(df);
    var v := vals[i].value;
    var j := PairsComplete(vals, Outcomes(df), i);
    assert Values(tmp)[j] == v;
    DistanceEdgesCover(mx, step, v);
    var edges := DistanceEdges(mx, step).value;
    var b := FindInterval(v, edges).value;
    assert edges[b] <= v < edges[b + 1];
  }

  // ---------------------------------------------------------------------
  // Yes/no features

  /** `isin([0, 1])` and `reindex([0, 1])`: value 0 is category 0 ("Non"),
      value 1 category 1 ("Oui"), any other value none. */
  function FlagCodes(values: seq<Option<real>>): (codes: seq<Option<nat>>)
    ensures |codes| == |values|
  {
    seq(|values|, k requires 0 <= k < |values| =>
      if values[k] == Some(0.0) then Some(0) else if values[k] == Some(1.0) then Some(1) else None)
  }

  /** `plot_binary_feature` */
  function FlagChart(df: Frame, col: string, file: string): Option<Chart>
  {
    var tmp := NumericOutcomes(df, col);
    if tmp == [] then None
    else Some(Bars(file, ["Non", "Oui"], CodedHeights(FlagCodes(Present(tmp)), Seconds(tmp), 2)))
  }

  /** Category `c` of the yes/no codes has rows exactly when the column holds `c`. */
  lemma FlagCoded(vals: seq<Option<real>>, outs: seq<real>, c: nat)
    requires |vals| == |outs| && c < 2
    ensures var tmp := Pairs(vals, outs);
      Coded(FlagCodes(Present(tmp)), Seconds(tmp), c) <==> Some(c as real) in vals
  {
    var tmp := Pairs(vals, outs);
    var codes := FlagCodes(Present(tmp));
    if Coded(codes, Seconds(tmp), c) {
      var j :| 0 <= j < |codes| && j < |Seconds(tmp)| && codes[j] == Some(c);
      var i := PairsSound(vals, outs, j);
      assert Present(tmp)[j] == Some(c as real);
      assert vals[i] == Some(c as real);
    }
    if Some(c as real) in vals {
      var i :| 0 <= i < |vals| && vals[i] == Some(c as real);
      var j := PairsComplete(vals, outs, i);
      assert Present(tmp)[j] == Some(c as real);
      assert codes[j] == if c == 0 then Some(0) else Some(1);
    }
  }

  /** The yes/no chart: nothing when the column is all NaN, else the bars
      "Non" for 0 and "Oui" for 1, each missing exactly when no row holds
      that value (other values count for neither), otherwise a percentage. */
  lemma FlagChartSpec(df: Frame, col: string, file: string)
    requires Binary(Outcomes(df))
    ensures FlagChart(df, col, file).None? <==> forall i :: 0 <= i < |df.rows| ==> NumColumn(df, col)[i].None?
    ensures FlagChart(df, col, file).Some? ==>
      var c := FlagChart(df, col, file).value;
      && c.Bars? && c.file == file && c.labels == ["Non", "Oui"] && |c.heights| == 2
      && (c.heights[0].None? <==> Some(0.0) !in NumColumn(df, col))
      && (c.heights[1].None? <==> Some(1.0) !in NumColumn(df, col))
      && (forall i :: 0 <= i < 2 && c.heights[i].Some? ==> 0.0 <= c.heights[i].value <= 100.0)
  {
    var vals := NumColumn(df, col);
    PairsEmpty(vals, Outcomes(df));
    var tmp := NumericOutcomes(df, col);
    if tmp != [] {
      PairsBinary(vals, Outcomes(df));
      assert Binary(Seconds(tmp));
      CategoryHeights(FlagCodes(Present(tmp)), Seconds(tmp), 2);
      FlagCoded(vals, Outcomes(df), 0);
      FlagCoded(vals, Outcomes(df), 1);
    }
  }

  // ---------------------------------------------------------------------
  // Sex by age heatmap

  /** Each row's (sex, age) when it has both, else NaN. */
  function SexAge(df: Frame): (v: seq<Option<(string, real)>>)
    ensures |v| == |df.rows|
  {
    var sex := TextColumn(df, "Sex");
    var age := NumColumn(df, "Age");
    seq(|df.rows|, i requires 0 <= i < |df.rows| =>
      if sex[i].Some? && age[i].Some? then Some((sex[i].value, age[i].value)) else None)
  }

  function Ages(tmp: seq<((string, real), real)>): (v: seq<Option<real>>)
    ensures |v| == |tmp| && forall k :: 0 <= k < |tmp| ==> v[k] == Some(tmp[k].0.1)
  {
    seq(|tmp|, k requires 0 <= k < |tmp| => Some(tmp[k].0.1))
  }

  /** Each kept row's (sex, age band), or NaN when its age is in no band. */
  function Crossed(tmp: seq<((string, real), real)>, codes: seq<Option<nat>>): (v: seq<Option<(string, nat)>>)
    ensures |v| == |tmp|
  {
    seq(|tmp|, k requires 0 <= k < |tmp| =>
      if k < |codes| && codes[k].Some? then Some((tmp[k].0.0, codes[k].value)) else None)
  }

  /** The rows the pivot table aggregates: those with a sex and an age band. */
  function HeatRows(tmp: seq<((string, real), real)>, codes: seq<Option<nat>>): seq<Cross>
  {
    Pairs(Crossed(tmp, codes), Seconds(tmp))
  }

  /** The label of each column category. */
  function ColumnLabels(cols: seq<nat>, labels: seq<string>): (r: seq<string>)
    ensures |r| == |cols|
  {
    seq(|cols|, j requires 0 <= j < |cols| => if cols[j] < |labels| then labels[cols[j]] else "")
  }

  /** `pivot_table(...) * 100` */
  function PercentCells(cells: seq<seq<Option<real>>>): (r: seq<seq<Option<real>>>)
    ensures |r| == |cells| && forall i :: 0 <= i < |cells| ==> r[i] == PercentOrMissing(cells[i])
  {
    seq(|cells|, i requires 0 <= i < |cells| => PercentOrMissing(cells[i]))
  }

  /** `plot_heatmap_sex_age` */
  function HeatmapChart(df: Frame, edges: seq<int>, corrected: bool): Result<Option<Chart>, Failure>
  {
    var tmp := Pairs(SexAge(df), Outcomes(df));
    if tmp == [] then Success(None)
    else match AgeBands(Ages(tmp), edges, corrected)
      case Failure(e) => Failure(BinningFailed(e))
      case Success(b) =>
        var p := Pivot(HeatRows(tmp, b.codes));
        if p.rowKeys == [] || p.colKeys == [] then Success(None)
        else Success(Some(Heatmap("07_heatmap_sexe_age.png", p.rowKeys,
          ColumnLabels(p.colKeys, b.labels), PercentCells(p.cells))))
  }

  /** As written, the heatmap raises as soon as one row has both a sex and
      an age: with main.py's edges the error is 8 labels for 9 intervals. */
  lemma HeatmapAsWritten(df: Frame, edges: seq<int>)
    ensures (forall i :: 0 <= i < |df.rows| ==> SexAge(df)[i].None?) ==>
      HeatmapChart(df, edges, false) == Success(None)
    ensures (exists i :: 0 <= i < |df.rows| && SexAge(df)[i].Some?) && |edges| >= 1 ==>
      HeatmapChart(df, edges, false).Failure?
    ensures (exists i :: 0 <= i < |df.rows| && SexAge(df)[i].Some?) ==>
      HeatmapChart(df, AgeEdges, false) == Failure(BinningFailed(LabelCountMismatch(8, 9)))
  {
    var tmp := Pairs(SexAge(df), Outcomes(df));
    PairsEmpty(SexAge(df), Outcomes(df));
    if tmp != [] {
      if |edges| >= 1 {
        CutBinsWithPlusFails(Ages(tmp), edges);
      }
      AgeEdgesIncreasing();
      CutBinsWithPlusFails(Ages(tmp), AgeEdges);
    }
  }

  /** Row `i` has a sex and an age inside the bands `[edges[0], 10**9)`. */
  ghost predicate Banded(df: Frame, edges: seq<int>, i: int)
  {
    && 0 <= i < |df.rows| && |edges| >= 1 && SexAge(df)[i].Some?
    && edges[0] as real <= SexAge(df)[i].value.1 < Sentinel as real
  }

  /** The rows the corrected heatmap aggregates. */
  function BandedRows(df: Frame, edges: seq<int>): seq<Cross>
  {
    var tmp := Pairs(SexAge(df), Outcomes(df));
    match CutBinsOpenEnded(Ages(tmp), edges)
    case Success(b) => HeatRows(tmp, b.codes)
    case Failure(_) => []
  }

  /** With the open-ended band labelled, a sex has a heatmap row exactly
      when some row of that sex has an age inside the bands. */
  lemma BandedRowsSex(df: Frame, edges: seq<int>, s: string)
    requires |edges| >= 1 && StrictlyIncreasing(Bins(edges, true))
    ensures s in Pivot(BandedRows(df, edges)).rowKeys <==>
      exists i :: Banded(df, edges, i) && SexAge(df)[i].value.0 == s
  {
    var rows := BandedRows(df, edges);
    PivotRowKeys(rows);
    if exists k :: 0 <= k < |rows| && rows[k].0.0 == s {
      var k :| 0 <= k < |rows| && rows[k].0.0 == s;
      var i := BandedRowSound(df, edges, k);
    }
    if exists i :: Banded(df, edges, i) && SexAge(df)[i].value.0 == s {
      var i :| Banded(df, edges, i) && SexAge(df)[i].value.0 == s;
      var k := BandedRowComplete(df, edges, i);
    }
  }

  /** Each heat-map row comes from a row with a sex and an age inside the bands. */
  lemma BandedRowSound(df: Frame, edges: seq<int>, k: nat) returns (i: int)
    requires |edges| >= 1 && StrictlyIncreasing(Bins(edges, true))
    requires k < |BandedRows(df, edges)|
    ensures Banded(df, edges, i) && SexAge(df)[i].value.0 == BandedRows(df, edges)[k].0.0
  {
    var sa := SexAge(df);
    var outs := Outcomes(df);
    var tmp := Pairs(sa, outs);
    CutBinsOpenEndedCovers(Ages(tmp), edges);
    var codes := CutBinsOpenEnded(Ages(tmp), edges).value.codes;
    var cr := Crossed(tmp, codes);
    assert BandedRows(df, edges) == Pairs(cr, Seconds(tmp));
    var j := PairsSound(cr, Seconds(tmp), k);
    assert codes[j].Some? && Ages(tmp)[j] == Some(tmp[j].0.1);
    i := PairsSound(sa, outs, j);
  }

  /** Each row with a sex and an age inside the bands gives a heat-map row. */
  lemma BandedRowComplete(df: Frame, edges: seq<int>, i: int) returns (k: nat)
    requires |edges| >= 1 && StrictlyIncreasing(Bins(edges, true))
    requires Banded(df, edges, i)
    ensures k < |BandedRows(df, edges)| && BandedRows(df, edges)[k].0.0 == SexAge(df)[i].value.0
  {
    var sa := SexAge(df);
    var outs := Outcomes(df);
    var tmp := Pairs(sa, outs);
    CutBinsOpenEndedCovers(Ages(tmp), edges);
    var codes := CutBinsOpenEnded(Ages(tmp), edges).value.codes;
    var cr := Crossed(tmp, codes);
    assert BandedRows(df, edges) == Pairs(cr, Seconds(tmp));
    var j := PairsComplete(sa, outs, i);
    assert Ages(tmp)[j] == Some(sa[i].value.1);
    assert cr[j].Some?;
    k := PairsComplete(cr, Seconds(tmp), j);
  }

  /** The heatmap's rows are 0/1 outcomes when the frame's are. */
  lemma BandedRowsBinary(df: Frame, edges: seq<int>)
    requires Binary(Outcomes(df))
    ensures BinaryOutcomes(BandedRows(df, edges))
  {
    var tmp := Pairs(SexAge(df), Outcomes(df));
    PairsBinary(SexAge(df), Outcomes(df));
    assert Binary(Seconds(tmp));
    if CutBinsOpenEnded(Ages(tmp), edges).Success? {
      PairsBinary(Crossed(tmp, CutBinsOpenEnded(Ages(tmp), edges).value.codes), Seconds(tmp));
    }
  }

  /** With the open-ended band labelled, the heatmap is the pivot table of
      the banded rows, drawn when it has a row. */
  lemma HeatmapValue(df: Frame, edges: seq<int>)
    requires |edges| >= 1 && StrictlyIncreasing(Bins(edges, true))
    ensures var p := Pivot(BandedRows(df, edges));
      HeatmapChart(df, edges, true) == Success(
        if p.rowKeys == [] then None
        else Some(Heatmap("07_heatmap_sexe_age.png", p.rowKeys,
          ColumnLabels(p.colKeys, OpenEndedLabels(edges)), PercentCells(p.cells))))
  {
    var tmp := Pairs(SexAge(df), Outcomes(df));
    CutBinsOpenEndedSpec(Ages(tmp), edges);
    var rows := BandedRows(df, edges);
    var p := Pivot(rows);
    PivotRowKeys(rows);
    PivotColKeys(rows);
    if rows != [] {
      assert rows[0].0.0 in p.rowKeys && rows[0].0.1 in p.colKeys;
    } else if tmp != [] {
      assert p.rowKeys == [];
    }
  }

  /** With the open-ended band labelled, the heatmap never fails, and it
      is drawn exactly when some row has a sex and an age inside the bands. */
  lemma HeatmapDrawn(df: Frame, edges: seq<int>)
    requires |edges| >= 1 && StrictlyIncreasing(Bins(edges, true))
    ensures HeatmapChart(df, edges, true).Success?
    ensures HeatmapChart(df, edges, true).value.Some? <==> exists i :: Banded(df, edges, i)
  {
    HeatmapValue(df, edges);
    var p := Pivot(BandedRows(df, edges));
    if exists i :: Banded(df, edges, i) {
      var i :| Banded(df, edges, i);
      BandedRowsSex(df, edges, SexAge(df)[i].value.0);
      assert p.rowKeys != [];
    } else if p.rowKeys != [] {
      BandedRowsSex(df, edges, p.rowKeys[0]);
      assert false;
    }
  }

  /** A drawn corrected heatmap has one row per sex with an age inside the
      bands, in ascending order, one column per band present, and each
      cell missing or a percentage. */
  lemma HeatmapCorrected(df: Frame, edges: seq<int>)
    requires Binary(Outcomes(df))
    requires |edges| >= 1 && StrictlyIncreasing(Bins(edges, true))
    ensures HeatmapChart(df, edges, true).Success? && HeatmapChart(df, edges, true).value.Some? ==>
      var c := HeatmapChart(df, edges, true).value.value;
      && c.Heatmap? && StrictlySorted(c.rowLabels, StringLess)
      && (forall s :: s in c.rowLabels <==> exists i :: Banded(df, edges, i) && SexAge(df)[i].value.0 == s)
      && |c.cells| == |c.rowLabels|
      && (forall i :: 0 <= i < |c.cells| ==> |c.cells[i]| == |c.columnLabels|)
      && (forall i, j :: 0 <= i < |c.cells| && 0 <= j < |c.cells[i]| && c.cells[i][j].Some? ==>
            0.0 <= c.cells[i][j].value <= 100.0)
  {
    HeatmapValue(df, edges);
    var p := Pivot(BandedRows(df, edges));
    BandedRowsBinary(df, edges);
    PivotSpec(BandedRows(df, edges));
    forall s ensures s in p.rowKeys <==> exists i :: Banded(df, edges, i) && SexAge(df)[i].value.0 == s {
      BandedRowsSex(df, edges, s);
    }
  }

  // ---------------------------------------------------------------------
  // The recap: an insertion-ordered dict of rates

  type Recap = seq<(string, Option<real>)>

  const GlobalKey: string := "Global_survival_%"

  /** `{f"{prefix}{k}": v for k, v in table.items()}` */
  function Prefixed(prefix: string, t: seq<(string, real)>): (r: Recap)
    ensures |r| == |t| && forall i :: 0 <= i < |t| ==> r[i] == (prefix + t[i].0, Some(t[i].1))
  {
    seq(|t|, i requires 0 <= i < |t| => (prefix + t[i].0, Some(t[i].1)))
  }

  /** `{f"Age:{k}": v for k, v in by_age.dropna().items()}` over the first
      `n` bands: the bands with a rate, in band order. */
  function BandEntries(labels: seq<string>, heights: seq<Option<real>>, n: nat): Recap
    requires n <= |labels| && n <= |heights|
  {
    if n == 0 then []
    else
      var last: Recap := if heights[n - 1].Some? then [("Age:" + labels[n - 1], heights[n - 1])] else [];
      BandEntries(labels, heights, n - 1) + last
  }

  /** `100 * df.groupby(age_bin)["Survived"].mean()`, one height per band. */
  function AgeHeights(df: Frame, b: Binned): (h: seq<Option<real>>)
    ensures |h| == |b.labels|
  {
    CodedHeights(b.codes, Outcomes(df), |b.labels|)
  }

  /** The recap of main.py's `main`, or the error it stops with: the global
      rate, then `update` with the rates per sex, per age band and per
      status. */
  function RecapOf(df: Frame, edges: seq<int>, corrected: bool): Result<Recap, Failure>
  {
    match AgeBands(NumColumn(df, "Age"), edges, corrected)
    case Failure(e) => Failure(BinningFailed(e))
    case Success(b) =>
      var global := Put([], GlobalKey, Rate(Outcomes(df)));
      var withSex := PutAll(global, Prefixed("Sex:", RateTable(df, "Sex")));
      var withAge := PutAll(withSex, BandEntries(b.labels, AgeHeights(df, b), |b.labels|));
      Success(PutAll(withAge, Prefixed("Status:", RateTable(df, "Status"))))
  }

  /** `recap.update({f"{prefix}{k}": v ...})`, one entry at a time. */
  method UpdatePrefixed(recap: Recap, prefix: string, t: seq<(string, real)>) returns (r: Recap)
    ensures r == PutAll(recap, Prefixed(prefix, t))
  {
    r := recap;
    for i := 0 to |t|
      invariant r == PutAll(recap, Prefixed(prefix, t[..i]))
    {
      PutAllSnoc(recap, Prefixed(prefix, t[..i]), (prefix + t[i].0, Some(t[i].1)));
      assert Prefixed(prefix, t[..i + 1]) == Prefixed(prefix, t[..i]) + [(prefix + t[i].0, Some(t[i].1))];
      r := Put(r, prefix + t[i].0, Some(t[i].1));
    }
    assert t[..|t|] == t;
  }

  /** `recap.update({f"Age:{k}": v for k, v in by_age.dropna().items()})` */
  method UpdateBands(recap: Recap, labels: seq<string>, heights: seq<Option<real>>) returns (r: Recap)
    requires |labels| == |heights|
    ensures r == PutAll(recap, BandEntries(labels, heights, |labels|))
  {
    r := recap;
    for i := 0 to |labels|
      invariant r == PutAll(recap, BandEntries(labels, heights, i))
    {
      if heights[i].Some? {
        PutAllSnoc(recap, BandEntries(labels, heights, i), ("Age:" + labels[i], heights[i]));
        assert BandEntries(labels, heights, i + 1) == BandEntries(labels, heights, i) + [("Age:" + labels[i], heights[i])];
        r := Put(r, "Age:" + labels[i], heights[i]);
      } else {
        assert BandEntries(labels, heights, i + 1) == BandEntries(labels, heights, i);
      }
    }
  }

  /** Fills the recap step by step, as main.py's `main` does. */
  method BuildRecap(df: Frame, edges: seq<int>, corrected: bool) returns (r: Result<Recap, Failure>)
    ensures r == RecapOf(df, edges, corrected)
    ensures !corrected && |edges| >= 1 ==> r.Failure?
  {
    var recap: Recap := [];
    recap := Put(recap, GlobalKey, Rate(Outcomes(df)));
    recap := UpdatePrefixed(recap, "Sex:", RateTable(df, "Sex"));
    var bands: Result<Binned, CutError>;
    if corrected {
      bands := CutBinsOpenEnded(NumColumn(df, "Age"), edges);
    } else {
      bands := CutBins(NumColumn(df, "Age"), edges, true);
    }
    if bands.Failure? {
      return Failure(BinningFailed(bands.error));
    }
    var b := bands.value;
    recap := UpdateBands(recap, b.labels, AgeHeights(df, b));
    recap := UpdatePrefixed(recap, "Status:", RateTable(df, "Status"));
    return Success(recap);
  }

  /** Every key starts with the two letters of `tag`. */
  ghost predicate Tagged(r: Recap, tag: (char, char))
  {
    forall i :: 0 <= i < |r| ==> |r[i].0| >= 2 && (r[i].0[0], r[i].0[1]) == tag
  }

  /** Keys under different two-letter tags never meet. */
  lemma TaggedApart(a: Recap, b: Recap, ta: (char, char), tb: (char, char))
    requires Tagged(a, ta) && Tagged(b, tb) && ta != tb
    ensures Apart(a, b)
  {
  }

  /** Prefixed entries carry their prefix's first two letters, and have
      distinct keys when the table's labels are ascending. */
  lemma PrefixedKeys(prefix: string, t: seq<(string, real)>)
    requires |prefix| >= 2
    ensures Tagged(Prefixed(prefix, t), (prefix[0], prefix[1]))
    ensures StrictlySorted(Keys(t), StringLess) ==> DistinctKeys(Prefixed(prefix, t))
  {
    var r := Prefixed(prefix, t);
    forall i | 0 <= i < |r| ensures |r[i].0| >= 2 && r[i].0[0] == prefix[0] && r[i].0[1] == prefix[1] {
      assert r[i].0 == prefix + t[i].0;
    }
    if StrictlySorted(Keys(t), StringLess) {
      forall i, j | 0 <= i < j < |r| ensures r[i].0 != r[j].0 {
        if r[i].0 == r[j].0 {
          assert (prefix + t[i].0)[|prefix|..] == t[i].0;
          assert (prefix + t[j].0)[|prefix|..] == t[j].0;
          assert Keys(t)[i] == Keys(t)[j];
          StringLessIrreflexive(t[i].0);
        }
      }
    }
  }

  /** An age entry is a band with a rate, keyed by its label. */
  lemma {:induction false} BandEntriesSpec(labels: seq<string>, heights: seq<Option<real>>, n: nat, k: nat)
    requires n <= |labels| && n <= |heights| && k < |BandEntries(labels, heights, n)|
    ensures exists i :: 0 <= i < n && heights[i].Some? && BandEntries(labels, heights, n)[k] == ("Age:" + labels[i], heights[i])
  {
    var front := BandEntries(labels, heights, n - 1);
    if k < |front| {
      BandEntriesSpec(labels, heights, n - 1, k);
    }
  }

  /** Every band with a rate has its entry. */
  lemma {:induction false} BandEntriesComplete(labels: seq<string>, heights: seq<Option<real>>, n: nat, i: nat)
    requires n <= |labels| && n <= |heights| && i < n && heights[i].Some?
    ensures ("Age:" + labels[i], heights[i]) in BandEntries(labels, heights, n)
  {
    if i < n - 1 {
      BandEntriesComplete(labels, heights, n - 1, i);
    }
  }

  /** Age entries carry "Ag", and distinct labels give distinct keys. */
  lemma BandEntriesKeys(labels: seq<string>, heights: seq<Option<real>>)
    requires |labels| == |heights|
    ensures Tagged(BandEntries(labels, heights, |labels|), ('A', 'g'))
    ensures (forall i, j :: 0 <= i < j < |labels| ==> labels[i] != labels[j]) ==>
      DistinctKeys(BandEntries(labels, heights, |labels|))
  {
    BandEntriesTagged(labels, heights);
    if forall i, j :: 0 <= i < j < |labels| ==> labels[i] != labels[j] {
      BandEntriesDistinct(labels, heights);
    }
  }

  lemma BandEntriesTagged(labels: seq<string>, heights: seq<Option<real>>)
    requires |labels| == |heights|
    ensures Tagged(BandEntries(labels, heights, |labels|), ('A', 'g'))
  {
    var r := BandEntries(labels, heights, |labels|);
    forall k | 0 <= k < |r| ensures |r[k].0| >= 2 && (r[k].0[0], r[k].0[1]) == ('A', 'g') {
      BandEntriesSpec(labels, heights, |labels|, k);
      var i :| 0 <= i < |labels| && heights[i].Some? && r[k] == ("Age:" + labels[i], heights[i]);
      AgeKeyTag(labels[i]);
    }
  }

  lemma AgeKeyTag(name: string)
    ensures |"Age:" + name| >= 2 && (("Age:" + name)[0], ("Age:" + name)[1]) == ('A', 'g')
  {
  }

  lemma BandEntriesDistinct(labels: seq<string>, heights: seq<Option<real>>)
    requires |labels| == |heights|
    requires forall i, j :: 0 <= i < j < |labels| ==> labels[i] != labels[j]
    ensures DistinctKeys(BandEntries(labels, heights, |labels|))
  {
    var r := BandEntries(labels, heights, |labels|);
    forall k, l | 0 <= k < l < |r| ensures r[k].0 != r[l].0 {
      BandEntriesOrdered(labels, heights, |labels|, k, l);
    }
  }

  /** Later age entries come from later bands. */
  lemma {:induction false} BandEntriesOrdered(labels: seq<string>, heights: seq<Option<real>>, n: nat, k: nat, l: nat)
    requires n <= |labels| && n <= |heights| && k < l < |BandEntries(labels, heights, n)|
    requires forall i, j :: 0 <= i < j < |labels| ==> labels[i] != labels[j]
    ensures BandEntries(labels, heights, n)[k].0 != BandEntries(labels, heights, n)[l].0
  {
    var front := BandEntries(labels, heights, n - 1);
    var r := BandEntries(labels, heights, n);
    if l < |front| {
      BandEntriesOrdered(labels, heights, n - 1, k, l);
    } else {
      BandEntriesSpec(labels, heights, n - 1, k);
      var i :| 0 <= i < n - 1 && heights[i].Some? && front[k] == ("Age:" + labels[i], heights[i]);
      assert r[k] == front[k] && r[l] == ("Age:" + labels[n - 1], heights[n - 1]);
      assert ("Age:" + labels[i])[4..] == labels[i];
      assert ("Age:" + labels[n - 1])[4..] == labels[n - 1];
    }
  }

  /** The recap's entries in insertion order, when they are all distinct. */
  function RecapEntries(df: Frame, b: Binned): Recap
  {
    [(GlobalKey, Rate(Outcomes(df)))]
      + Prefixed("Sex:", RateTable(df, "Sex"))
      + BandEntries(b.labels, AgeHeights(df, b), |b.labels|)
      + Prefixed("Status:", RateTable(df, "Status"))
  }

  /** A rate table's labels are strictly ascending. */
  lemma RateTableSorted(df: Frame, col: string)
    ensures StrictlySorted(Keys(RateTable(df, col)), StringLess)
  {
    StringLessIsStrictTotalOrder();
    GroupMeansSpec(LabelledOutcomes(df, col), StringLess);
  }

  /** The entries of a rate table under `prefix`: tagged and distinct. */
  lemma TableEntriesKeys(df: Frame, col: string, prefix: string)
    requires |prefix| >= 2
    ensures Tagged(Prefixed(prefix, RateTable(df, col)), (prefix[0], prefix[1]))
    ensures DistinctKeys(Prefixed(prefix, RateTable(df, col)))
  {
    RateTableSorted(df, col);
    PrefixedKeys(prefix, RateTable(df, col));
  }

  /** No two recap entries share a key when the age labels are distinct. */
  lemma RecapEntriesDistinct(df: Frame, b: Binned)
    requires forall i, j :: 0 <= i < j < |b.labels| ==> b.labels[i] != b.labels[j]
    ensures DistinctKeys(RecapEntries(df, b))
  {
    var g: Recap := [(GlobalKey, Rate(Outcomes(df)))];
    var sx := Prefixed("Sex:", RateTable(df, "Sex"));
    var ag := BandEntries(b.labels, AgeHeights(df, b), |b.labels|);
    var st := Prefixed("Status:", RateTable(df, "Status"));
    TableEntriesKeys(df, "Sex", "Sex:");
    TableEntriesKeys(df, "Status", "Status:");
    BandEntriesKeys(b.labels, AgeHeights(df, b));
    TagLetters();
    assert Tagged(g, ('G', 'l'));
    TaggedPartsDistinct(g, sx, ag, st);
  }

  /** The first two letters of the recap's key prefixes. */
  lemma TagLetters()
    ensures |GlobalKey| >= 2 && (GlobalKey[0], GlobalKey[1]) == ('G', 'l')
    ensures ("Sex:"[0], "Sex:"[1]) == ('S', 'e') && ("Status:"[0], "Status:"[1]) == ('S', 't')
  {
  }

  /** Four key-distinct parts under the tags "Gl", "Se", "Ag" and "St"
      concatenate to key-distinct entries. */
  lemma TaggedPartsDistinct(g: Recap, sx: Recap, ag: Recap, st: Recap)
    requires Tagged(g, ('G', 'l')) && Tagged(sx, ('S', 'e')) && Tagged(ag, ('A', 'g')) && Tagged(st, ('S', 't'))
    requires DistinctKeys(g) && DistinctKeys(sx) && DistinctKeys(ag) && DistinctKeys(st)
    ensures DistinctKeys(g + sx + ag + st)
  {
    assert Apart(g, sx) && Apart(g, ag) && Apart(g, st) by {
      TaggedApart(g, sx, ('G', 'l'), ('S', 'e'));
      TaggedApart(g, ag, ('G', 'l'), ('A', 'g'));
      TaggedApart(g, st, ('G', 'l'), ('S', 't'));
    }
    assert Apart(sx, ag) && Apart(sx, st) && Apart(ag, st) by {
      TaggedApart(sx, ag, ('S', 'e'), ('A', 'g'));
      TaggedApart(sx, st, ('S', 'e'), ('S', 't'));
      TaggedApart(ag, st, ('A', 'g'), ('S', 't'));
    }
    assert DistinctKeys(g + sx + ag) by {
      DistinctAppend(g, sx);
      ApartAppend(g, sx, ag);
      DistinctAppend(g + sx, ag);
    }
    assert Apart(g + sx + ag, st) by {
      ApartAppend(g, sx, st);
      ApartAppend(g + sx, ag, st);
    }
    DistinctAppend(g + sx + ag, st);
  }

  /** The age labels the recap is keyed by are distinct whenever the
      recap is built: main.py's labels only for an empty edge list, the
      corrected ones for increasing edges. */
  lemma RecapLabelsDistinct(df: Frame, edges: seq<int>, corrected: bool)
    requires corrected ==> StrictlyIncreasing(Bins(edges, true))
    requires AgeBands(NumColumn(df, "Age"), edges, corrected).Success?
    ensures var ls := AgeBands(NumColumn(df, "Age"), edges, corrected).value.labels;
      forall i, j :: 0 <= i < j < |ls| ==> ls[i] != ls[j]
  {
    if corrected {
      OpenEndedLabelsDistinct(edges);
    } else if |edges| >= 1 {
      CutBinsWithPlusFails(NumColumn(df, "Age"), edges);
    }
  }

  /** Every key of the recap is new when it is put, so the recap holds the
      global rate, then one entry per sex, per age band with rows and per
      status, in that order and under distinct keys; the global entry is
      the rate of the whole outcome column. */
  lemma RecapSpec(df: Frame, edges: seq<int>, corrected: bool)
    requires corrected ==> StrictlyIncreasing(Bins(edges, true))
    ensures RecapOf(df, edges, corrected).Success? ==>
      var b := AgeBands(NumColumn(df, "Age"), edges, corrected).value;
      var r := RecapOf(df, edges, corrected).value;
      && r == RecapEntries(df, b)
      && DistinctKeys(r)
      && Lookup(r, GlobalKey) == Some(Rate(Outcomes(df)))
  {
    if RecapOf(df, edges, corrected).Success? {
      var b := AgeBands(NumColumn(df, "Age"), edges, corrected).value;
      RecapLabelsDistinct(df, edges, corrected);
      RecapEntriesDistinct(df, b);
      var g: Recap := [(GlobalKey, Rate(Outcomes(df)))];
      var sx := Prefixed("Sex:", RateTable(df, "Sex"));
      var ag := BandEntries(b.labels, AgeHeights(df, b), |b.labels|);
      var st := Prefixed("Status:", RateTable(df, "Status"));
      assert RecapEntries(df, b) == g + sx + ag + st;
      DistinctPrefix(g + sx + ag, st);
      DistinctPrefix(g + sx, ag);
      PutFresh([], GlobalKey, Rate(Outcomes(df)));
      PutAllFresh(g, sx);
      PutAllFresh(g + sx, ag);
      PutAllFresh(g + sx + ag, st);
    }
  }

  // ---------------------------------------------------------------------
  // The pipeline of main.py's `main`

  /** The figures drawn, in order, the recap when it is written, and the
      exception `main` stops with, if any. */
  datatype Report = Report(charts: seq<Chart>, recap: Option<Recap>, failure: Option<Failure>)

  /** `main` after reading the CSV: prepare, draw the figures in order
      (stopping at the first exception), then build the recap. `ageEdges`
      are main.py's `[0, 10, ..., 80]`; `corrected` gives the open-ended age
      band its own label. */
  method Analyse(raw: Frame, parse: Parser, ageEdges: seq<int>, corrected: bool) returns (report: Report)
    ensures Prepared(raw, parse).Failure? ==> report == Report([], None, Some(Prepared(raw, parse).error))
    ensures Prepared(raw, parse).Success? ==>
      |report.charts| >= 1 && report.charts[0] == OverallChart(Prepared(raw, parse).value)
    ensures report.failure.None? <==> report.recap.Some?
    ensures report.recap.Some? ==>
      && Prepared(raw, parse).Success?
      && RecapOf(Prepared(raw, parse).value, ageEdges, corrected) == Success(report.recap.value)
    ensures !corrected && |ageEdges| >= 1 ==> report.recap.None?
    ensures !corrected && |ageEdges| >= 1 && Prepared(raw, parse).Success? && !AllMissing(NumColumn(Prepared(raw, parse).value, "Age")) ==>
      && |report.charts| <= 2
      && (ageEdges == AgeEdges ==> report.failure == Some(BinningFailed(LabelCountMismatch(8, 9))))
    ensures corrected && |ageEdges| >= 1 && StrictlyIncreasing(Bins(ageEdges, true)) && Prepared(raw, parse).Success? ==>
      (report.failure.None? <==> DistanceChart(Prepared(raw, parse).value).Success?)
    ensures report.failure.None? ==>
      && Prepared(raw, parse).Success?
      && Completes(Prepared(raw, parse).value, ageEdges, corrected)
      && report.charts == [OverallChart(Prepared(raw, parse).value)] + Figures(Prepared(raw, parse).value, ageEdges, corrected)
  {
    var prepared := Prepare(raw, parse);
    if prepared.Failure? {
      return Report([], None, Some(prepared.error));
    }
    var df := prepared.value;
    var drawn, failure := Draw(df, ageEdges, corrected);
    var charts := [OverallChart(df)] + drawn;
    if failure.Some? {
      return Report(charts, None, failure);
    }
    if corrected && |ageEdges| >= 1 && StrictlyIncreasing(Bins(ageEdges, true)) {
      CutBinsOpenEndedSucceeds(NumColumn(df, "Age"), ageEdges);
    }
    var recap := BuildRecap(df, ageEdges, corrected);
    if recap.Failure? {
      return Report(charts, None, Some(recap.error));
    }
    return Report(charts, Some(recap.value), None);
  }

  /** A figure when its function drew one. */
  function Shown(c: Option<Chart>): (r: seq<Chart>)
    ensures c.Some? ==> r == [c.value]
    ensures c.None? ==> r == []
  {
    if c.Some? then [c.value] else []
  }

  /** Whether none of the figures that can raise does. */
  predicate Completes(df: Frame, ageEdges: seq<int>, corrected: bool)
  {
    && AgeBinsChart(df, ageEdges, corrected).Success?
    && DistanceChart(df).Success?
    && HeatmapChart(df, ageEdges, corrected).Success?
  }

  /** The figures after the global one in a run without exception: every
      figure that has data, in main.py's order. */
  function Figures(df: Frame, ageEdges: seq<int>, corrected: bool): seq<Chart>
    requires Completes(df, ageEdges, corrected)
  {
    Shown(RankedChart(df, "Sex", "02_survie_par_sexe.png"))
      + Shown(AgeBinsChart(df, ageEdges, corrected).value)
      + Shown(RankedChart(df, "Status", "04_survie_par_statut.png"))
      + Shown(DistanceChart(df).value)
      + Shown(FlagChart(df, "ShelterAccess", "09_survie_selon_abri.png"))
      + Shown(FlagChart(df, "HasPet", "10_survie_selon_animal.png"))
      + Shown(HeatmapChart(df, ageEdges, corrected).value)
  }

  /** The figures after the global one, in main.py's order, up to the first
      exception. */
  method Draw(df: Frame, ageEdges: seq<int>, corrected: bool) returns (drawn: seq<Chart>, failure: Option<Failure>)
    ensures failure.None? <==> Completes(df, ageEdges, corrected)
    ensures failure.None? ==> Completes(df, ageEdges, corrected) && drawn == Figures(df, ageEdges, corrected)
    ensures !corrected && |ageEdges| >= 1 && !AllMissing(NumColumn(df, "Age")) ==>
      && |drawn| <= 1 && failure.Some?
      && (ageEdges == AgeEdges ==> failure == Some(BinningFailed(LabelCountMismatch(8, 9))))
    ensures corrected && |ageEdges| >= 1 && StrictlyIncreasing(Bins(ageEdges, true)) ==>
      (failure.None? <==> DistanceChart(df).Success?)
  {
    var age := AgeBinsChart(df, ageEdges, corrected);
    AgeBinsChartAsWritten(df, ageEdges);
    if corrected && |ageEdges| >= 1 && StrictlyIncreasing(Bins(ageEdges, true)) {
      AgeBinsChartSucceeds(df, ageEdges);
      HeatmapDrawn(df, ageEdges);
    }
    drawn := Shown(RankedChart(df, "Sex", "02_survie_par_sexe.png"));
    if age.Failure? {
      return drawn, Some(age.error);
    }
    drawn := drawn + Shown(age.value);
    drawn := drawn + Shown(RankedChart(df, "Status", "04_survie_par_statut.png"));
    var distance := DistanceChart(df);
    if distance.Failure? {
      return drawn, Some(distance.error);
    }
    drawn := drawn + Shown(distance.value);
    drawn := drawn + Shown(FlagChart(df, "ShelterAccess", "09_survie_selon_abri.png"));
    drawn := drawn + Shown(FlagChart(df, "HasPet", "10_survie_selon_animal.png"));
    var heatmap := HeatmapChart(df, ageEdges, corrected);
    if heatmap.Failure? {
      return drawn, Some(heatmap.error);
    }
    drawn := drawn + Shown(heatmap.value);
    return drawn, None;
  }
}
