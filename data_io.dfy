/**
 * The legacy workbook readers: the baseline total, the target map, the
 * piecewise-linear `_interp` of a technology's rows over the model years and
 * the scalar parameters `build_timeseries` derives from those series.
 * A NaN cell is `None`; a sheet that may be absent is an `Option`.
 */
module DataIo {

  import opened Wrappers
  import opened Reals
  import opened Ints
  import Sorting
  import OrderedMaps
  import Strings

  // ---------------------------------------------------------------- baseline

  const TotalParameter: string := "Total_Scope1plus2_MtCO2e_2023"

  /** A row of the `Baseline_Assumptions` sheet. */
  datatype ParamRow = ParamRow(parameter: string, value: real)

  /** A row of the `Baseline_2023` sheet; `None` is an empty (NaN) cell. */
  datatype Baseline2023Row = Baseline2023Row(scope1: Option<real>, scope2: Option<real>)

  /** The value of the first row whose parameter is `name`. */
  function FirstParam(rows: seq<ParamRow>, name: string): (r: Option<real>)
    ensures r.None? <==> forall i :: 0 <= i < |rows| ==> rows[i].parameter != name
    ensures r.Some? ==> exists i :: 0 <= i < |rows| && rows[i].parameter == name && rows[i].value == r.value &&
                                    forall j :: 0 <= j < i ==> rows[j].parameter != name
  {
    if |rows| == 0 then None
    else if rows[0].parameter == name then Some(rows[0].value)
    else
      var rest := FirstParam(rows[1..], name);
      assert forall i :: 1 <= i < |rows| ==> rows[i] == rows[1..][i - 1];
      if rest.Some? then
        ghost var k :| 0 <= k < |rows[1..]| && rows[1..][k].parameter == name && rows[1..][k].value == rest.value &&
                       forall j :: 0 <= j < k ==> rows[1..][j].parameter != name;
        assert rows[k + 1].parameter == name && forall j :: 0 <= j < k + 1 ==> rows[j].parameter != name;
        rest
      else rest
  }

  /** `series.sum(skipna=True)`. */
  function SumPresent(xs: seq<Option<real>>): (r: real)
    ensures (forall i :: 0 <= i < |xs| ==> xs[i].None?) ==> r == 0.0
    ensures (forall i :: 0 <= i < |xs| && xs[i].Some? ==> xs[i].value >= 0.0) ==> r >= 0.0
  {
    if |xs| == 0 then 0.0
    else SumPresent(xs[..|xs| - 1]) + xs[|xs| - 1].GetOr(0.0)
  }

  /** The NaN-skipping sum of two columns one after the other is the sum of their sums. */
  lemma {:induction false} SumPresentAppend(xs: seq<Option<real>>, ys: seq<Option<real>>)
    ensures SumPresent(xs + ys) == SumPresent(xs) + SumPresent(ys)
    decreases |ys|
  {
    if |ys| == 0 {
      assert xs + ys == xs;
    } else {
      var n := |ys| - 1;
      SumPresentAppend(xs, ys[..n]);
      assert (xs + ys)[..|xs + ys| - 1] == xs + ys[..n];
    }
  }

  /** One present value counts as itself, a NaN as nothing. */
  lemma SumPresentSingle(x: Option<real>)
    ensures SumPresent([x]) == (if x.Some? then x.value else 0.0)
  {
    assert [x][..0] == [];
  }

  function Scope1s(rows: seq<Baseline2023Row>): seq<Option<real>>
  {
    seq(|rows|, i requires 0 <= i < |rows| => rows[i].scope1)
  }

  function Scope2s(rows: seq<Baseline2023Row>): seq<Option<real>>
  {
    seq(|rows|, i requires 0 <= i < |rows| => rows[i].scope2)
  }

  /** The total baseline (Mt CO2e): the assumption parameter, else scope 1 + 2 over 1e6, else an error. */
  function BaselineTotalMt(assumptions: Option<seq<ParamRow>>, baseline2023: Option<seq<Baseline2023Row>>): (r: Result<real>)
    ensures assumptions.Some? && FirstParam(assumptions.value, TotalParameter).Some? ==>
              r == Ok(FirstParam(assumptions.value, TotalParameter).value)
    ensures (assumptions.None? || FirstParam(assumptions.value, TotalParameter).None?) && baseline2023.Some? ==>
              r == Ok((SumPresent(Scope1s(baseline2023.value)) + SumPresent(Scope2s(baseline2023.value))) / 1000000.0)
    ensures r.Err? <==> (assumptions.None? || FirstParam(assumptions.value, TotalParameter).None?) && baseline2023.None?
    ensures r.Err? ==> r.error == ValueError
  {
    if assumptions.Some? && FirstParam(assumptions.value, TotalParameter).Some? then
      Ok(FirstParam(assumptions.value, TotalParameter).value)
    else if baseline2023.Some? then
      Ok((SumPresent(Scope1s(baseline2023.value)) + SumPresent(Scope2s(baseline2023.value))) / 1000000.0)
    else Err(ValueError)
  }

  // ---------------------------------------------------------------- targets

  /** A row of the `Emissions_Target` sheet; the year may be empty. */
  datatype TargetRow = TargetRow(year: Option<real>, targetMt: real)

  /** The rows that survive `dropna(Year)`, `astype(int)` and the optional `isin(years)` filter. */
  function KeptTargets(rows: seq<TargetRow>, years: Option<seq<int>>): (r: seq<(int, real)>)
    ensures |r| <= |rows|
    ensures forall p :: p in r <==>
      exists i :: 0 <= i < |rows| && rows[i].year.Some? &&
        p == (Trunc(rows[i].year.value), rows[i].targetMt) &&
        (years.None? || Trunc(rows[i].year.value) in years.value)
  {
    if |rows| == 0 then []
    else
      var rest := KeptTargets(rows[..|rows| - 1], years);
      assert forall i :: 0 <= i < |rows| - 1 ==> rows[..|rows| - 1][i] == rows[i];
      rest + KeptRow(rows[|rows| - 1], years)
  }

  /** One row's contribution: its truncated year and target when it has a year within `years`. */
  function KeptRow(row: TargetRow, years: Option<seq<int>>): seq<(int, real)>
  {
    if row.year.Some? && (years.None? || Trunc(row.year.value) in years.value)
    then [(Trunc(row.year.value), row.targetMt)]
    else []
  }

  /** The filter keeps row order: the kept rows of `a + b` are those of `a` followed by those of `b`. */
  lemma {:induction false} KeptTargetsAppend(a: seq<TargetRow>, b: seq<TargetRow>, years: Option<seq<int>>)
    ensures KeptTargets(a + b, years) == KeptTargets(a, years) + KeptTargets(b, years)
    decreases |b|
  {
    if |b| == 0 {
      assert a + b == a;
    } else {
      var n := |b| - 1;
      KeptTargetsAppend(a, b[..n], years);
      var x, y, z := KeptTargets(a, years), KeptTargets(b[..n], years), KeptRow(b[n], years);
      assert KeptTargets(a + b, years) == KeptTargets(a + b[..n], years) + z by {
        var ab := a + b;
        assert ab[..|ab| - 1] == a + b[..n] && ab[|ab| - 1] == b[n];
        KeptTargetsStep(ab, years);
      }
      assert KeptTargets(b, years) == y + z by {
        KeptTargetsStep(b, years);
      }
      assert x + y + z == x + (y + z);
    }
  }

  lemma KeptTargetsStep(rows: seq<TargetRow>, years: Option<seq<int>>)
    requires |rows| > 0
    ensures KeptTargets(rows, years) == KeptTargets(rows[..|rows| - 1], years) + KeptRow(rows[|rows| - 1], years)
  {
  }

  /** `(years_all, tmap)`: the kept years in row order and `dict(zip(...))`, where the last row of a year wins. */
  function TargetsMap(rows: seq<TargetRow>, years: Option<seq<int>>): (r: (seq<int>, OrderedMaps.Dict<int, real>))
    ensures |r.0| == |KeptTargets(rows, years)|
    ensures forall i :: 0 <= i < |r.0| ==> r.0[i] == KeptTargets(rows, years)[i].0
    ensures OrderedMaps.DistinctKeys(r.1)
    ensures forall y :: OrderedMaps.Get(r.1, y) == OrderedMaps.LastWith(KeptTargets(rows, years), y)
  {
    var kept := KeptTargets(rows, years);
    OrderedMaps.FromPairsDistinct(kept);
    forall y
      ensures OrderedMaps.Get(OrderedMaps.FromPairs(kept), y) == OrderedMaps.LastWith(kept, y)
    {
      OrderedMaps.FromPairsGet(kept, y);
    }
    (seq(|kept|, i requires 0 <= i < |kept| => kept[i].0), OrderedMaps.FromPairs(kept))
  }

  /** `LastWith` finds a key exactly when some pair carries it. */
  lemma {:induction false} LastWithPresent(ps: seq<(int, real)>, y: int)
    ensures OrderedMaps.LastWith(ps, y).Some? <==> exists i :: 0 <= i < |ps| && ps[i].0 == y
  {
    if |ps| > 0 {
      LastWithPresent(ps[..|ps| - 1], y);
      assert forall i :: 0 <= i < |ps| - 1 ==> ps[..|ps| - 1][i] == ps[i];
    }
  }

  /** The target map has an entry for exactly the years listed in `years_all`. */
  lemma {:induction false} TargetsMapKeys(rows: seq<TargetRow>, years: Option<seq<int>>, y: int)
    ensures OrderedMaps.HasKey(TargetsMap(rows, years).1, y) <==> y in TargetsMap(rows, years).0
  {
    var kept := KeptTargets(rows, years);
    LastWithPresent(kept, y);
    var ys := TargetsMap(rows, years).0;
    if y in ys {
      var i :| 0 <= i < |ys| && ys[i] == y;
      assert kept[i].0 == y;
    }
  }

  // ---------------------------------------------------------------- _interp

  /** A `MACC_Template` row: its technology, its `Ref_Year` cell and its numeric cells by column. */
  datatype MaccRow = MaccRow(techId: string, refYear: Option<real>, cells: map<string, real>)

  /** `row[col]`; a missing column and an empty cell both read as NaN. */
  function CellValue(row: MaccRow, col: string): Option<real>
  {
    if col in row.cells then Some(row.cells[col]) else None
  }

  predicate NoRefYear(rows: seq<MaccRow>)
  {
    forall i :: 0 <= i < |rows| ==> rows[i].refYear.None?
  }

  /** The `(Ref_Year, value)` knots of the rows that have a reference year, in row order. */
  function RawKnots(rows: seq<MaccRow>, col: string): (r: seq<(int, Option<real>)>)
    ensures |r| <= |rows|
    ensures !NoRefYear(rows) ==> |r| > 0
    ensures forall k :: k in r <==>
      exists i :: 0 <= i < |rows| && rows[i].refYear.Some? && k == (Trunc(rows[i].refYear.value), CellValue(rows[i], col))
  {
    if |rows| == 0 then []
    else
      var rest := RawKnots(rows[..|rows| - 1], col);
      var last := rows[|rows| - 1];
      assert !NoRefYear(rows) && last.refYear.None? ==> !NoRefYear(rows[..|rows| - 1]);
      assert forall i :: 0 <= i < |rows| - 1 ==> rows[..|rows| - 1][i] == rows[i];
      if last.refYear.Some? then rest + [(Trunc(last.refYear.value), CellValue(last, col))] else rest
  }

  /** The knots keep row order: those of `a + b` are those of `a` followed by those of `b`. */
  lemma {:induction false} RawKnotsAppend(a: seq<MaccRow>, b: seq<MaccRow>, col: string)
    ensures RawKnots(a + b, col) == RawKnots(a, col) + RawKnots(b, col)
    decreases |b|
  {
    if |b| == 0 {
      assert a + b == a;
    } else {
      var n := |b| - 1;
      RawKnotsAppend(a, b[..n], col);
      assert (a + b)[..|a + b| - 1] == a + b[..n];
    }
  }

  function ByYear(p: (int, Option<real>), q: (int, Option<real>)): bool
  {
    p.0 <= q.0
  }

  lemma {:induction false} ByYearTotal()
    ensures Sorting.TotalPreorder(ByYear)
  {
  }

  /** The knots sorted by reference year. */
  function Knots(rows: seq<MaccRow>, col: string): (r: seq<(int, Option<real>)>)
    ensures |r| == |RawKnots(rows, col)|
    ensures multiset(r) == multiset(RawKnots(rows, col))
  {
    Sorting.SortBy(RawKnots(rows, col), ByYear)
  }

  lemma {:induction false} KnotsSorted(rows: seq<MaccRow>, col: string)
    ensures Sorted(seq(|Knots(rows, col)|, i requires 0 <= i < |Knots(rows, col)| => Knots(rows, col)[i].0))
  {
    ByYearTotal();
    Sorting.SortBySorted(RawKnots(rows, col), ByYear);
  }

  /**
   * The segment `_interp` stops at for an interior year: the first `k` with
   * `xs[k] <= y <= xs[k+1]`. Every earlier segment ends below `y`, so `xs[k] < y`.
   */
  function FirstSegment(xs: seq<int>, y: int, i: nat): (k: nat)
    requires i < |xs| - 1 && xs[i] < y < xs[|xs| - 1]
    ensures i <= k < |xs| - 1
    ensures xs[k] < y <= xs[k + 1]
    ensures forall j :: i <= j < k ==> !(xs[j] <= y <= xs[j + 1])
    decreases |xs| - i
  {
    if y <= xs[i + 1] then i else FirstSegment(xs, y, i + 1)
  }

  /** One segment's value: NaN endpoints give way to the other one, otherwise `v0 + t*(v1 - v0)`. */
  function SegmentValue(v0: Option<real>, v1: Option<real>, x0: int, x1: int, y: int): (r: Option<real>)
    requires x0 < y <= x1
    ensures v0.None? && v1.None? ==> r.None?
    ensures v0.None? && v1.Some? ==> r == v1
    ensures v0.Some? && v1.None? ==> r == v0
    ensures v0.Some? && v1.Some? ==> r.Some? && Min(v0.value, v1.value) <= r.value <= Max(v0.value, v1.value)
    ensures y == x1 && v1.Some? ==> r == v1
  {
    if v0.None? && v1.None? then None
    else if v0.None? then v1
    else if v1.None? then v0
    else
      var t := (y - x0) as real / (x1 - x0) as real;
      assert 0.0 < t <= 1.0;
      assert v0.value + t * (v1.value - v0.value) == v0.value * (1.0 - t) + v1.value * t;
      LerpBetween(v0.value, v1.value, t);
      assert y == x1 ==> t * (x1 - x0) as real == (x1 - x0) as real;
      Some(v0.value + t * (v1.value - v0.value))
  }

  /** A year's value from sorted knots: flat before the first and after the last, linear in between. */
  function InterpAt(xs: seq<int>, vs: seq<Option<real>>, y: int): (r: Option<real>)
    requires |xs| == |vs| > 0
    ensures y <= xs[0] ==> r == vs[0]
    ensures xs[0] < y && y >= xs[|xs| - 1] ==> r == vs[|vs| - 1]
  {
    if y <= xs[0] then vs[0]
    else if y >= xs[|xs| - 1] then vs[|vs| - 1]
    else
      var k := FirstSegment(xs, y, 0);
      SegmentValue(vs[k], vs[k + 1], xs[k], xs[k + 1], y)
  }

  function KnotYears(knots: seq<(int, Option<real>)>): (xs: seq<int>)
    ensures |xs| == |knots|
  {
    seq(|knots|, i requires 0 <= i < |knots| => knots[i].0)
  }

  function KnotValues(knots: seq<(int, Option<real>)>): (vs: seq<Option<real>>)
    ensures |vs| == |knots|
  {
    seq(|knots|, i requires 0 <= i < |knots| => knots[i].1)
  }

  /** The value `_interp(rows, col, years)` gives year `y`. */
  function InterpValue(rows: seq<MaccRow>, col: string, y: int): (r: Option<real>)
    ensures |rows| == 0 ==> r.None?
    ensures |rows| > 0 && NoRefYear(rows) ==> r == CellValue(rows[0], col)
  {
    if |rows| == 0 then None
    else if NoRefYear(rows) then CellValue(rows[0], col)
    else
      var knots := Knots(rows, col);
      InterpAt(KnotYears(knots), KnotValues(knots), y)
  }

  /** `_interp(rows, col, years)` as a map. */
  ghost function Series(rows: seq<MaccRow>, col: string, years: seq<int>): (m: map<int, Option<real>>)
    ensures forall i :: 0 <= i < |years| ==> years[i] in m
    ensures forall y :: y in m ==> m[y] == InterpValue(rows, col, y)
  {
    map y | y in years :: InterpValue(rows, col, y)
  }

  /** `_interp`: one value per model year. */
  method Interp(rows: seq<MaccRow>, col: string, years: seq<int>) returns (series: map<int, Option<real>>)
    ensures series == Series(rows, col, years)
  {
    if |rows| == 0 {
      return map y | y in years :: None;
    }
    if NoRefYear(rows) {
      var v := CellValue(rows[0], col);
      return map y | y in years :: v;
    }
    var knots := Knots(rows, col);
    var xs, vs := KnotYears(knots), KnotValues(knots);
    series := map[];
    var n := 0;
    while n < |years|
      invariant 0 <= n <= |years|
      invariant series == Series(rows, col, years[..n])
    {
      var v := InterpYear(xs, vs, years[n]);
      SeriesStep(rows, col, years, n);
      series := series[years[n] := v];
      n := n + 1;
    }
    assert years[..n] == years;
  }

  /** The value for one model year: the end knots beyond the range, otherwise the first segment holding it. */
  method InterpYear(xs: seq<int>, vs: seq<Option<real>>, y: int) returns (v: Option<real>)
    requires |xs| == |vs| > 0
    ensures v == InterpAt(xs, vs, y)
  {
    if y <= xs[0] {
      v := vs[0];
    } else if y >= xs[|xs| - 1] {
      v := vs[|vs| - 1];
    } else {
      // the scan breaks out at the first segment holding `y`
      ghost var k := FirstSegment(xs, y, 0);
      var i := 0;
      while !(xs[i] <= y <= xs[i + 1])
        invariant 0 <= i <= k
        decreases k - i
      {
        i := i + 1;
      }
      v := SegmentValue(vs[i], vs[i + 1], xs[i], xs[i + 1], y);
    }
  }

  lemma {:induction false} SeriesStep(rows: seq<MaccRow>, col: string, years: seq<int>, n: nat)
    requires n < |years|
    ensures Series(rows, col, years[..n + 1]) == Series(rows, col, years[..n])[years[n] := InterpValue(rows, col, years[n])]
  {
    assert years[..n + 1] == years[..n] + [years[n]];
  }

  /** With distinct reference years, a knot's own year returns the knot's value unless that value is NaN. */
  lemma {:induction false} InterpAtKnot(xs: seq<int>, vs: seq<Option<real>>, j: nat)
    requires |xs| == |vs| > j
    requires StrictlySorted(xs)
    requires vs[j].Some?
    ensures InterpAt(xs, vs, xs[j]) == vs[j]
  {
    var y := xs[j];
    if 0 < j < |xs| - 1 {
      var k := FirstSegment(xs, y, 0);
      assert k + 1 == j;
    }
  }

  /** An interior year lies in a segment `xs[k] < y <= xs[k+1]` and, with both ends known, between their values. */
  lemma {:induction false} InterpBetweenKnots(xs: seq<int>, vs: seq<Option<real>>, y: int)
    requires |xs| == |vs| > 0
    requires xs[0] < y < xs[|xs| - 1]
    ensures var k := FirstSegment(xs, y, 0);
      xs[k] < y <= xs[k + 1] &&
      (vs[k].Some? && vs[k + 1].Some? ==>
        InterpAt(xs, vs, y).Some? &&
        Min(vs[k].value, vs[k + 1].value) <= InterpAt(xs, vs, y).value <= Max(vs[k].value, vs[k + 1].value))
  {
  }

  // ---------------------------------------------------------------- build_timeseries

  /** A `TechOptions` row; `ramp` is `None` when the cell is missing or NaN. */
  datatype TechOptionRow = TechOptionRow(techId: string, ramp: Option<real>)

  /** The per-technology parameters `build_timeseries` returns. */
  datatype TechParams = TechParams(
    activity: map<int, Option<real>>,
    cap: map<int, Option<real>>,
    abat: map<int, Option<real>>,
    capex: map<int, Option<real>>,
    fixed: map<int, Option<real>>,
    varOpex: map<int, Option<real>>,
    life: int,
    start: int,
    ramp: real)

  /** `next((v for v in vals if v == v), None)`: the first non-NaN value. */
  function FirstPresent(vals: seq<Option<real>>): (r: Option<real>)
    ensures r.None? <==> forall i :: 0 <= i < |vals| ==> vals[i].None?
    ensures r.Some? ==> exists i :: 0 <= i < |vals| && vals[i] == r &&
                                    forall j :: 0 <= j < i ==> vals[j].None?
  {
    if |vals| == 0 then None
    else if vals[0].Some? then vals[0]
    else
      var rest := FirstPresent(vals[1..]);
      assert forall i :: 1 <= i < |vals| ==> vals[i] == vals[1..][i - 1];
      if rest.Some? then
        ghost var k :| 0 <= k < |vals[1..]| && vals[1..][k] == rest && forall j :: 0 <= j < k ==> vals[1..][j].None?;
        assert vals[k + 1] == rest;
        rest
      else rest
  }

  /** The series read over the model years, in their order (a repeated year repeats its value). */
  function SeriesOver(series: map<int, Option<real>>, years: seq<int>): seq<Option<real>>
    requires forall i :: 0 <= i < |years| ==> years[i] in series
  {
    seq(|years|, i requires 0 <= i < |years| => series[years[i]])
  }

  function RowsOf(macc: seq<MaccRow>, tid: string): (r: seq<MaccRow>)
    ensures forall row :: row in r <==> row in macc && row.techId == tid
  {
    if |macc| == 0 then []
    else
      var rest := RowsOf(macc[..|macc| - 1], tid);
      assert forall row :: row in macc <==> row in macc[..|macc| - 1] || row == macc[|macc| - 1];
      if macc[|macc| - 1].techId == tid then rest + [macc[|macc| - 1]] else rest
  }

  /** The ramp of the first `TechOptions` row of the technology, if it has one that is not NaN. */
  function TechRamp(tech: Option<seq<TechOptionRow>>, tid: string): Option<real>
  {
    if tech.None? then None
    else
      FirstMatchRamp(tech.value, tid)
  }

  function FirstMatchRamp(rows: seq<TechOptionRow>, tid: string): (r: Option<real>)
    ensures (forall i :: 0 <= i < |rows| ==> rows[i].techId != tid) ==> r.None?
    ensures forall i :: 0 <= i < |rows| && rows[i].techId == tid && (forall j :: 0 <= j < i ==> rows[j].techId != tid)
              ==> r == rows[i].ramp
  {
    if |rows| == 0 then None
    else if rows[0].techId == tid then rows[0].ramp
    else
      assert forall i :: 1 <= i < |rows| ==> rows[i] == rows[1..][i - 1];
      FirstMatchRamp(rows[1..], tid)
  }

  /** `next((int(v) for v in life.values() if v == v), 20)`. */
  function LifeScalar(life: seq<Option<real>>): (r: int)
    ensures (forall i :: 0 <= i < |life| ==> life[i].None?) ==> r == 20
  {
    var v := FirstPresent(life);
    if v.Some? then Trunc(v.value) else 20
  }

  /** `next((int(v) for v in start.values() if v == v), min(years))`; `min` of no years raises first. */
  function StartScalar(start: seq<Option<real>>, years: seq<int>): (r: Result<int>)
    ensures r.Err? <==> |years| == 0
    ensures |years| > 0 && (forall i :: 0 <= i < |start| ==> start[i].None?) ==> r == Ok(MinInt(years))
  {
    if |years| == 0 then Err(ValueError)
    else
      var v := FirstPresent(start);
      Ok(if v.Some? then Trunc(v.value) else MinInt(years))
  }

  /** The parameters of one technology, or the `ValueError` of `min(years)` on an empty year list. */
  ghost function TechParamsOf(macc: seq<MaccRow>, tech: Option<seq<TechOptionRow>>, tid: string,
                              years: seq<int>, rampDefault: real): (r: Result<TechParams>)
    ensures r.Err? <==> |years| == 0
    ensures r.Ok? ==> r.value.ramp == TechRamp(tech, tid).GetOr(rampDefault)
    ensures r.Ok? ==> r.value.life == LifeScalar(SeriesOver(Series(RowsOf(macc, tid), "Lifetime_years", years), years))
    ensures r.Ok? ==> Ok(r.value.start) == StartScalar(SeriesOver(Series(RowsOf(macc, tid), "StartYear_Commercial", years), years), years)
  {
    var rows := RowsOf(macc, tid);
    var start := StartScalar(SeriesOver(Series(rows, "StartYear_Commercial", years), years), years);
    if start.Err? then Err(start.error)
    else
      Ok(TechParams(
        Series(rows, "Eligible_Activity_Volume", years), Series(rows, "Max_Adoption_Share", years),
        Series(rows, "Abatement_tCO2_per_activity", years), Series(rows, "Cost_CAPEX_KRW_per_unit", years),
        Series(rows, "Cost_FixedOPEX_KRW_per_unit_per_yr", years), Series(rows, "Cost_VarOPEX_KRW_per_activity", years),
        LifeScalar(SeriesOver(Series(rows, "Lifetime_years", years), years)),
        start.value,
        TechRamp(tech, tid).GetOr(rampDefault)))
  }

  function TechIds(macc: seq<MaccRow>): (ids: seq<string>)
    ensures |ids| == |macc|
    ensures forall i :: 0 <= i < |macc| ==> ids[i] == macc[i].techId
  {
    seq(|macc|, i requires 0 <= i < |macc| => macc[i].techId)
  }

  /** One technology's parameters, computed the way the loop body does it. */
  method TechParamsFor(macc: seq<MaccRow>, tech: Option<seq<TechOptionRow>>, tid: string,
                       years: seq<int>, rampDefault: real) returns (r: Result<TechParams>)
    ensures r.Err? <==> |years| == 0
    ensures r.Err? ==> r.error == ValueError
    ensures r == TechParamsOf(macc, tech, tid, years, rampDefault)
  {
    var rows := RowsOf(macc, tid);
    var activity := Interp(rows, "Eligible_Activity_Volume", years);
    var cap := Interp(rows, "Max_Adoption_Share", years);
    var abat := Interp(rows, "Abatement_tCO2_per_activity", years);
    var capex := Interp(rows, "Cost_CAPEX_KRW_per_unit", years);
    var fixed := Interp(rows, "Cost_FixedOPEX_KRW_per_unit_per_yr", years);
    var varOpex := Interp(rows, "Cost_VarOPEX_KRW_per_activity", years);
    var life := Interp(rows, "Lifetime_years", years);
    var start := Interp(rows, "StartYear_Commercial", years);
    var startScalar := StartScalar(SeriesOver(start, years), years);
    if startScalar.Err? {
      return Err(startScalar.error);
    }
    r := Ok(TechParams(activity, cap, abat, capex, fixed, varOpex,
                       LifeScalar(SeriesOver(life, years)), startScalar.value,
                       TechRamp(tech, tid).GetOr(rampDefault)));
  }

  /** Every technology in `params` carries the parameters its rows give. */
  ghost predicate ParamsOfRows(params: map<string, TechParams>, macc: seq<MaccRow>, tech: Option<seq<TechOptionRow>>,
                               years: seq<int>, rampDefault: real)
  {
    forall t :: t in params ==> Ok(params[t]) == TechParamsOf(macc, tech, t, years, rampDefault)
  }

  /** The loop of `build_timeseries` over the technology ids, when there are model years. */
  method BuildParams(macc: seq<MaccRow>, tech: Option<seq<TechOptionRow>>, tids: seq<string>,
                     years: seq<int>, rampDefault: real) returns (params: map<string, TechParams>)
    requires |years| > 0
    ensures params.Keys == set t | t in tids
    ensures ParamsOfRows(params, macc, tech, years, rampDefault)
  {
    params := map[];
    var n := 0;
    while n < |tids|
      invariant 0 <= n <= |tids|
      invariant params.Keys == set t | t in tids[..n]
      invariant ParamsOfRows(params, macc, tech, years, rampDefault)
    {
      var p := TechParamsFor(macc, tech, tids[n], years, rampDefault);
      ParamsOfRowsPut(params, macc, tech, years, rampDefault, tids[n], p);
      KeysStep(params, tids, n, p.value);
      params := params[tids[n] := p.value];
      n := n + 1;
    }
    FullPrefixKeys(tids);
  }

  lemma {:induction false} FullPrefixKeys(ids: seq<string>)
    ensures (set t | t in ids[..|ids|]) == set t | t in ids
  {
    assert ids[..|ids|] == ids;
  }

  /** Adding the next id to a map keyed by a prefix of the ids keys it by the longer prefix. */
  lemma {:induction false} KeysStep<V>(m: map<string, V>, ids: seq<string>, n: nat, v: V)
    requires n < |ids| && m.Keys == set t | t in ids[..n]
    ensures var longer := ids[..n + 1]; m[ids[n] := v].Keys == set t | t in longer
  {
    assert ids[..n + 1] == ids[..n] + [ids[n]];
  }

  lemma {:induction false} ParamsOfRowsPut(params: map<string, TechParams>, macc: seq<MaccRow>, tech: Option<seq<TechOptionRow>>,
                        years: seq<int>, rampDefault: real, t: string, p: Result<TechParams>)
    requires ParamsOfRows(params, macc, tech, years, rampDefault)
    requires p.Ok? && p == TechParamsOf(macc, tech, t, years, rampDefault)
    ensures ParamsOfRows(params[t := p.value], macc, tech, years, rampDefault)
  {
  }

  /**
   * `build_timeseries`: the distinct technology ids in ascending order and
   * their parameters. With at least one technology and no model years,
   * `min(years)` raises `ValueError` in the first iteration.
   */
  method BuildTimeseries(macc: seq<MaccRow>, tech: Option<seq<TechOptionRow>>, years: seq<int>, rampDefault: real)
    returns (r: Result<(seq<string>, map<string, TechParams>)>)
    ensures r.Err? <==> |macc| > 0 && |years| == 0
    ensures r.Err? ==> r.error == ValueError
    ensures r.Ok? ==> r.value.0 == Strings.SortedUnique(TechIds(macc))
    ensures r.Ok? ==> r.value.1.Keys == set t | t in r.value.0
    ensures r.Ok? ==> ParamsOfRows(r.value.1, macc, tech, years, rampDefault)
  {
    var tids := Strings.SortedUnique(TechIds(macc));
    if |macc| > 0 {
      assert macc[0].techId in TechIds(macc);
      assert macc[0].techId in tids;
    }
    if |tids| > 0 {
      assert tids[0] in TechIds(macc);
    }
    if |years| == 0 {
      if |tids| > 0 {
        return Err(ValueError);
      }
      return Ok((tids, map[]));
    }
    var params := BuildParams(macc, tech, tids, years, rampDefault);
    r := Ok((tids, params));
  }
}
