/**
 * The facility-based LP of the third development script: per facility and
 * process, the applicable technologies and their viable options, the annual
 * cost of each option, the reduction target of the year, the LP's
 * constraints over deployment levels, and the deployments read back from a
 * solution. The LP solver itself is a parameter (the levels it returns).
 */
module FacilityV3 {
  import opened Wrappers
  import opened Reals
  import Sorting
  import Strings
  import Finance

  // ---------------------------------------------------------------------
  // Year lookups
  // ---------------------------------------------------------------------

  /** The first row at or after `i` whose year is `year`, as a pandas boolean filter then `.iloc[0]` finds it. */
  function FirstIndexOfYear<T>(rows: seq<T>, yearOf: T -> int, year: int, i: nat): (k: Option<nat>)
    requires i <= |rows|
    ensures k.None? <==> forall j :: i <= j < |rows| ==> yearOf(rows[j]) != year
    ensures k.Some? ==> i <= k.value < |rows| && yearOf(rows[k.value]) == year
    ensures k.Some? ==> forall j :: i <= j < k.value ==> yearOf(rows[j]) != year
    decreases |rows| - i
  {
    if i == |rows| then None
    else if yearOf(rows[i]) == year then Some(i)
    else FirstIndexOfYear(rows, yearOf, year, i + 1)
  }

  /** One year's row of the emission-factor time series (tCO2 per GJ of fuel, per t of feedstock). */
  datatype EmissionFactors = EmissionFactors(
    year: int,
    naturalGasTPerGj: real,
    fuelOilTPerGj: real,
    electricityTPerGj: real,
    greenHydrogenTPerGj: real,
    naphthaTPerT: real,
    lpgTPerT: real,
    reformateTPerT: real)

  /** One year's row of the fuel-cost time series (USD per GJ). */
  datatype FuelCosts = FuelCosts(year: int, electricityUsdPerGj: real, greenHydrogenUsdPerGj: real)

  /** `df[df['Year'] == year].iloc[0]`: an IndexError when the year has no row. */
  function FactorsFor(efs: seq<EmissionFactors>, year: int): (r: Result<EmissionFactors>)
    ensures r.Err? <==> forall e :: e in efs ==> e.year != year
    ensures r.Err? ==> r.error == IndexError
    ensures r.Ok? ==> r.value in efs && r.value.year == year
  {
    match FirstIndexOfYear(efs, (e: EmissionFactors) => e.year, year, 0)
    case None => Err(IndexError)
    case Some(k) => Ok(efs[k])
  }

  /** The same lookup in the fuel-cost series. */
  function FuelCostsFor(fcs: seq<FuelCosts>, year: int): (r: Result<FuelCosts>)
    ensures r.Err? <==> forall c :: c in fcs ==> c.year != year
    ensures r.Err? ==> r.error == IndexError
    ensures r.Ok? ==> r.value in fcs && r.value.year == year
  {
    match FirstIndexOfYear(fcs, (c: FuelCosts) => c.year, year, 0)
    case None => Err(IndexError)
    case Some(k) => Ok(fcs[k])
  }

  // ---------------------------------------------------------------------
  // Reduction targets
  // ---------------------------------------------------------------------

  datatype TargetRow = TargetRow(year: int, reductionPct: real)

  function ByYear(a: TargetRow, b: TargetRow): bool
  {
    a.year <= b.year
  }

  lemma {:induction false} ByYearTotal()
    ensures Sorting.TotalPreorder(ByYear)
  {
  }

  /** `targets_df.sort_values('Year')`. */
  function SortedTargets(targets: seq<TargetRow>): (s: seq<TargetRow>)
    ensures |s| == |targets|
    ensures multiset(s) == multiset(targets)
    ensures forall i, j :: 0 <= i < j < |s| ==> s[i].year <= s[j].year
  {
    ByYearTotal();
    Sorting.SortBySorted(targets, ByYear);
    Sorting.SortBy(targets, ByYear)
  }

  /** The segment `np.interp` uses for an interior year: the last knot at or before it. */
  function Segment(s: seq<TargetRow>, year: int, k: nat): (j: nat)
    requires k < |s| - 1
    requires s[0].year <= year < s[k + 1].year
    ensures j <= k
    ensures s[j].year <= year < s[j + 1].year
    decreases k
  {
    if s[k].year <= year then k else Segment(s, year, k - 1)
  }

  /** `np.interp` on one segment: the slope times the offset into it, plus the left value. */
  function Interior(lo: TargetRow, hi: TargetRow, year: int): real
    requires lo.year <= year < hi.year
  {
    (hi.reductionPct - lo.reductionPct) / (hi.year - lo.year) as real * (year - lo.year) as real + lo.reductionPct
  }

  lemma {:induction false} SlopeTimes(dv: real, w: real, d: real)
    requires w > 0.0 && 0.0 <= d < w
    ensures dv / w * d == dv * (d / w)
    ensures 0.0 <= d / w < 1.0
  {
  }

  /** A segment's value lies between its two knot values, and is the left one at the left knot. */
  lemma {:induction false} InteriorBetween(lo: TargetRow, hi: TargetRow, year: int)
    requires lo.year <= year < hi.year
    ensures Min(lo.reductionPct, hi.reductionPct) <= Interior(lo, hi, year) <= Max(lo.reductionPct, hi.reductionPct)
    ensures year == lo.year ==> Interior(lo, hi, year) == lo.reductionPct
  {
    var a, b := lo.reductionPct, hi.reductionPct;
    var w, d := (hi.year - lo.year) as real, (year - lo.year) as real;
    SlopeTimes(b - a, w, d);
    var t := d / w;
    assert Interior(lo, hi, year) == a * (1.0 - t) + b * t;
    LerpBetween(a, b, t);
  }

  /** The interpolation on rows already sorted by year. */
  function InterpolateSorted(s: seq<TargetRow>, year: int): real
    requires |s| > 0
  {
    if year <= s[0].year then s[0].reductionPct
    else if year >= s[|s| - 1].year then s[|s| - 1].reductionPct
    else
      var j := Segment(s, year, |s| - 2);
      Interior(s[j], s[j + 1], year)
  }

  /**
   * `interpolate_target`: the first sorted value at or below the earliest
   * year, the last one at or above the latest, `np.interp` in between. With
   * no rows at all `np.interp` raises a ValueError.
   */
  function InterpolateTarget(targets: seq<TargetRow>, year: int): (r: Result<real>)
    ensures r.Err? <==> |targets| == 0
    ensures r.Err? ==> r.error == ValueError
  {
    if |targets| == 0 then Err(ValueError) else Ok(InterpolateSorted(SortedTargets(targets), year))
  }

  predicate SortedByYear(s: seq<TargetRow>)
  {
    forall i, j :: 0 <= i < j < |s| ==> s[i].year <= s[j].year
  }

  lemma {:induction false} SortedMembers(targets: seq<TargetRow>)
    ensures SortedByYear(SortedTargets(targets))
    ensures forall u :: u in SortedTargets(targets) <==> u in targets
  {
    var s := SortedTargets(targets);
    forall u
      ensures u in s <==> u in targets
    {
      assert u in s <==> u in multiset(s);
      assert u in targets <==> u in multiset(targets);
    }
  }

  lemma {:induction false} SortedEnds(s: seq<TargetRow>, i: nat)
    requires SortedByYear(s) && i < |s|
    ensures s[0].year <= s[i].year <= s[|s| - 1].year
  {
    if 0 < i {
      assert s[0].year <= s[i].year;
    }
    if i < |s| - 1 {
      assert s[i].year <= s[|s| - 1].year;
    }
  }

  /** Up to the earliest target year the result is the target of a row with the least year. */
  lemma {:induction false} InterpolateTargetEarly(targets: seq<TargetRow>, year: int)
    requires |targets| > 0
    requires forall u :: u in targets ==> year <= u.year
    ensures exists t :: t in targets && (forall u :: u in targets ==> t.year <= u.year) && InterpolateTarget(targets, year) == Ok(t.reductionPct)
  {
    var s := SortedTargets(targets);
    SortedMembers(targets);
    var t := s[0];
    assert t in s;
    assert InterpolateSorted(s, year) == t.reductionPct;
    forall u | u in targets
      ensures t.year <= u.year
    {
      var k :| 0 <= k < |s| && s[k] == u;
      SortedEnds(s, k);
    }
  }

  /** From the latest target year on, past some earlier one, the result is the target of a row with the greatest year. */
  lemma {:induction false} InterpolateTargetLate(targets: seq<TargetRow>, year: int)
    requires forall u :: u in targets ==> u.year <= year
    requires exists u :: u in targets && u.year < year
    ensures exists t :: t in targets && (forall u :: u in targets ==> u.year <= t.year) && InterpolateTarget(targets, year) == Ok(t.reductionPct)
  {
    var s := SortedTargets(targets);
    SortedMembers(targets);
    var v :| v in targets && v.year < year;
    var t := s[|s| - 1];
    assert t in s;
    forall u | u in targets
      ensures s[0].year <= u.year <= t.year
    {
      var k :| 0 <= k < |s| && s[k] == u;
      SortedEnds(s, k);
    }
    assert s[0].year < year;
    assert InterpolateSorted(s, year) == t.reductionPct;
  }

  lemma {:induction false} InterpolateSortedWithin(s: seq<TargetRow>, year: int, lo: real, hi: real)
    requires |s| > 0
    requires forall i :: 0 <= i < |s| ==> lo <= s[i].reductionPct <= hi
    ensures lo <= InterpolateSorted(s, year) <= hi
  {
    if s[0].year < year < s[|s| - 1].year {
      var j := Segment(s, year, |s| - 2);
      InteriorBetween(s[j], s[j + 1], year);
    }
  }

  /** The interpolated target never leaves the range of the given targets. */
  lemma {:induction false} InterpolateTargetWithin(targets: seq<TargetRow>, year: int, lo: real, hi: real)
    requires forall t :: t in targets ==> lo <= t.reductionPct <= hi
    ensures InterpolateTarget(targets, year).Ok? ==> lo <= InterpolateTarget(targets, year).value <= hi
  {
    if |targets| > 0 {
      var s := SortedTargets(targets);
      SortedMembers(targets);
      forall i | 0 <= i < |s|
        ensures lo <= s[i].reductionPct <= hi
      {
        assert s[i] in s;
      }
      InterpolateSortedWithin(s, year, lo, hi);
    }
  }

  lemma {:induction false} SortedIndexOrder(s: seq<TargetRow>, a: nat, b: nat)
    requires SortedByYear(s)
    requires a < |s| && b < |s| && s[a].year < s[b].year
    ensures a < b
  {
  }

  lemma {:induction false} ExactYearSorted(s: seq<TargetRow>, p: nat)
    requires SortedByYear(s) && p < |s|
    requires forall i :: 0 <= i < |s| && s[i].year == s[p].year ==> s[i].reductionPct == s[p].reductionPct
    ensures InterpolateSorted(s, s[p].year) == s[p].reductionPct
  {
    var year := s[p].year;
    SortedEnds(s, p);
    if s[0].year < year < s[|s| - 1].year {
      var j := Segment(s, year, |s| - 2);
      SortedIndexOrder(s, p, j + 1);
      if p < j {
        assert s[p].year <= s[j].year;
      }
      InteriorBetween(s[j], s[j + 1], year);
    }
  }

  /** A year that has exactly one target value is interpolated to that value. */
  lemma {:induction false} ExactYearInterpolates(targets: seq<TargetRow>, t: TargetRow)
    requires t in targets
    requires forall u :: u in targets && u.year == t.year ==> u == t
    ensures InterpolateTarget(targets, t.year) == Ok(t.reductionPct)
  {
    var s := SortedTargets(targets);
    SortedMembers(targets);
    var p :| 0 <= p < |s| && s[p] == t;
    forall i | 0 <= i < |s| && s[i].year == s[p].year
      ensures s[i].reductionPct == s[p].reductionPct
    {
      assert s[i] in s;
    }
    ExactYearSorted(s, p);
  }

  /** The year's target percentage: an exact row if there is one (the first), else the interpolated one. */
  function ReductionPct(targets: seq<TargetRow>, year: int): (r: Result<real>)
    ensures r.Err? <==> |targets| == 0
    ensures r.Err? ==> r.error == ValueError
  {
    match FirstIndexOfYear(targets, (t: TargetRow) => t.year, year, 0)
    case Some(k) => Ok(targets[k].reductionPct)
    case None => InterpolateTarget(targets, year)
  }

  /** When no year has two different targets, the exact-row shortcut agrees with interpolation. */
  lemma {:induction false} ReductionPctInterpolates(targets: seq<TargetRow>, year: int)
    requires forall u, v :: u in targets && v in targets && u.year == v.year ==> u == v
    ensures ReductionPct(targets, year) == InterpolateTarget(targets, year)
  {
    var k := FirstIndexOfYear(targets, (t: TargetRow) => t.year, year, 0);
    if k.Some? {
      ExactYearInterpolates(targets, targets[k.value]);
    }
  }

  /** The percentage used is one of the given ones or between two of them. */
  lemma {:induction false} ReductionPctWithin(targets: seq<TargetRow>, year: int, lo: real, hi: real)
    requires forall t :: t in targets ==> lo <= t.reductionPct <= hi
    ensures ReductionPct(targets, year).Ok? ==> lo <= ReductionPct(targets, year).value <= hi
  {
    var k := FirstIndexOfYear(targets, (t: TargetRow) => t.year, year, 0);
    if k.None? {
      InterpolateTargetWithin(targets, year, lo, hi);
    } else {
      assert targets[k.value] in targets;
    }
  }

  // ---------------------------------------------------------------------
  // Emissions
  // ---------------------------------------------------------------------

  /**
   * One consumption row: a facility's process with its activity (kt of
   * product) and energy use per t. A feedstock column the workbook lacks is
   * None.
   */
  datatype ConsumptionRow = ConsumptionRow(
    facilityId: string,
    company: string,
    region: string,
    processType: string,
    activityKt: real,
    naturalGasGjPerT: real,
    fuelOilGjPerT: real,
    electricityGjPerT: real,
    naphthaTPerT: Option<real>,
    lpgTPerT: Option<real>,
    reformateTPerT: Option<real>)

  /** kt of product times GJ per t, times 1000 (GJ), times tCO2 per GJ, over 1000 (ktCO2). */
  function FuelEmissions(activityKt: real, gjPerT: real, factor: real): real
  {
    activityKt * gjPerT * 1000.0 * factor / 1000.0
  }

  /** kt of product times t of feedstock per t, times tCO2 per t, over 1000. */
  function FeedstockEmissions(activityKt: real, tPerT: real, factor: real): real
  {
    activityKt * tPerT * factor / 1000.0
  }

  lemma {:induction false} FuelLinear(a: real, g: real, f: real)
    ensures FuelEmissions(a, g, f) == a * (g * f)
  {
    assert a * g * 1000.0 * f == (a * (g * f)) * 1000.0;
  }

  lemma {:induction false} FeedstockLinear(a: real, t: real, f: real)
    ensures FeedstockEmissions(a, t, f) == a * (t * f / 1000.0)
  {
    assert a * t * f == a * (t * f);
  }

  /** `calculate_process_baseline_emissions`: a missing feedstock column contributes nothing. */
  function ProcessBaselineEmissions(row: ConsumptionRow, ef: EmissionFactors): real
  {
    FuelEmissions(row.activityKt, row.naturalGasGjPerT, ef.naturalGasTPerGj)
    + FuelEmissions(row.activityKt, row.fuelOilGjPerT, ef.fuelOilTPerGj)
    + FuelEmissions(row.activityKt, row.electricityGjPerT, ef.electricityTPerGj)
    + FeedstockEmissions(row.activityKt, row.naphthaTPerT.GetOr(0.0), ef.naphthaTPerT)
    + FeedstockEmissions(row.activityKt, row.lpgTPerT.GetOr(0.0), ef.lpgTPerT)
    + FeedstockEmissions(row.activityKt, row.reformateTPerT.GetOr(0.0), ef.reformateTPerT)
  }

  /** Emissions per kt of product of a consumption row, independent of its activity. */
  function BaselineIntensity(row: ConsumptionRow, ef: EmissionFactors): real
  {
    row.naturalGasGjPerT * ef.naturalGasTPerGj + row.fuelOilGjPerT * ef.fuelOilTPerGj
    + row.electricityGjPerT * ef.electricityTPerGj
    + row.naphthaTPerT.GetOr(0.0) * ef.naphthaTPerT / 1000.0
    + row.lpgTPerT.GetOr(0.0) * ef.lpgTPerT / 1000.0
    + row.reformateTPerT.GetOr(0.0) * ef.reformateTPerT / 1000.0
  }

  /** A process's baseline emissions are its activity times its per-kt intensity. */
  lemma {:induction false} BaselineIsActivityTimesIntensity(row: ConsumptionRow, ef: EmissionFactors)
    ensures ProcessBaselineEmissions(row, ef) == row.activityKt * BaselineIntensity(row, ef)
  {
    var a := row.activityKt;
    FuelLinear(a, row.naturalGasGjPerT, ef.naturalGasTPerGj);
    FuelLinear(a, row.fuelOilGjPerT, ef.fuelOilTPerGj);
    FuelLinear(a, row.electricityGjPerT, ef.electricityTPerGj);
    FeedstockLinear(a, row.naphthaTPerT.GetOr(0.0), ef.naphthaTPerT);
    FeedstockLinear(a, row.lpgTPerT.GetOr(0.0), ef.lpgTPerT);
    FeedstockLinear(a, row.reformateTPerT.GetOr(0.0), ef.reformateTPerT);
  }

  /** One row of `calculate_facility_baseline_emissions`; the intensity is None for zero activity. */
  datatype BaselineRow = BaselineRow(
    facilityId: string,
    company: string,
    region: string,
    processType: string,
    capacityKt: real,
    emissionsKt: real,
    intensity: Option<real>)

  /** That script's baseline year. */
  const BaselineYear := 2023

  /** A baseline row reads the feedstock columns directly, so a missing one is a KeyError. */
  function BaselineRowOf(row: ConsumptionRow, ef: EmissionFactors): (r: Result<BaselineRow>)
    ensures r.Err? <==> row.naphthaTPerT.None? || row.lpgTPerT.None? || row.reformateTPerT.None?
    ensures r.Err? ==> r.error == KeyError
  {
    if row.naphthaTPerT.None? || row.lpgTPerT.None? || row.reformateTPerT.None? then Err(KeyError)
    else
      var total :=
        FuelEmissions(row.activityKt, row.naturalGasGjPerT, ef.naturalGasTPerGj)
        + FuelEmissions(row.activityKt, row.fuelOilGjPerT, ef.fuelOilTPerGj)
        + FuelEmissions(row.activityKt, row.electricityGjPerT, ef.electricityTPerGj)
        + FeedstockEmissions(row.activityKt, row.naphthaTPerT.value, ef.naphthaTPerT)
        + FeedstockEmissions(row.activityKt, row.lpgTPerT.value, ef.lpgTPerT)
        + FeedstockEmissions(row.activityKt, row.reformateTPerT.value, ef.reformateTPerT);
      Ok(BaselineRow(row.facilityId, row.company, row.region, row.processType, row.activityKt, total,
                     if row.activityKt == 0.0 then None else Some(total * 1000.0 / row.activityKt)))
  }

  /**
   * The facility baseline agrees with the per-process baseline the options
   * use, and its reported intensity is 1000 times the per-kt intensity,
   * whatever the activity.
   */
  lemma {:induction false} BaselineRowAgrees(row: ConsumptionRow, ef: EmissionFactors)
    requires BaselineRowOf(row, ef).Ok?
    ensures BaselineRowOf(row, ef).value.emissionsKt == ProcessBaselineEmissions(row, ef)
    ensures row.activityKt != 0.0 ==> BaselineRowOf(row, ef).value.intensity == Some(1000.0 * BaselineIntensity(row, ef))
  {
    BaselineIsActivityTimesIntensity(row, ef);
    var b := BaselineRowOf(row, ef).value;
    assert b.emissionsKt == ProcessBaselineEmissions(row, ef);
    if row.activityKt != 0.0 {
      assert b.intensity == Some(b.emissionsKt * 1000.0 / row.activityKt);
      assert b.emissionsKt == row.activityKt * BaselineIntensity(row, ef);
      ProductQuotient(row.activityKt, BaselineIntensity(row, ef));
      assert b.emissionsKt * 1000.0 / row.activityKt == 1000.0 * BaselineIntensity(row, ef);
    }
  }

  lemma {:induction false} ProductQuotient(a: real, e: real)
    requires a != 0.0
    ensures a * e * 1000.0 / a == 1000.0 * e
  {
  }

  /** The baseline rows of the consumption rows, in order; the first failing row's error otherwise. */
  function BaselineRows(consumption: seq<ConsumptionRow>, ef: EmissionFactors): (r: Result<seq<BaselineRow>>)
    ensures r.Ok? <==> forall row :: row in consumption ==> BaselineRowOf(row, ef).Ok?
    ensures r.Ok? ==> |r.value| == |consumption|
    ensures r.Ok? ==> forall i :: 0 <= i < |consumption| ==> Ok(r.value[i]) == BaselineRowOf(consumption[i], ef)
    ensures r.Err? ==> r.error == KeyError
    decreases |consumption|
  {
    if |consumption| == 0 then Ok([])
    else
      var init, row := consumption[..|consumption| - 1], consumption[|consumption| - 1];
      var prev := BaselineRows(init, ef);
      var last := BaselineRowOf(row, ef);
      assert consumption == init + [row];
      assert forall x :: x in consumption <==> x in init || x == row;
      if prev.Err? then
        assert exists x :: x in init && BaselineRowOf(x, ef).Err?;
        prev
      else if last.Err? then Err(last.error)
      else Ok(prev.value + [last.value])
  }

  /** `calculate_facility_baseline_emissions`: the 2023 factors, then one row per consumption row. */
  function FacilityBaselines(consumption: seq<ConsumptionRow>, efs: seq<EmissionFactors>): (r: Result<seq<BaselineRow>>)
    ensures r.Err? ==> r.error == IndexError || r.error == KeyError
  {
    match FactorsFor(efs, BaselineYear)
    case Err(e) => Err(e)
    case Ok(ef) => BaselineRows(consumption, ef)
  }

  method FacilityBaselineEmissions(consumption: seq<ConsumptionRow>, efs: seq<EmissionFactors>)
    returns (r: Result<seq<BaselineRow>>)
    ensures r == FacilityBaselines(consumption, efs)
  {
    var found := FactorsFor(efs, BaselineYear);
    if found.Err? {
      return Err(found.error);
    }
    var ef := found.value;
    var rows: seq<BaselineRow> := [];
    var i := 0;
    while i < |consumption|
      invariant 0 <= i <= |consumption|
      invariant BaselineRows(consumption[..i], ef) == Ok(rows)
    {
      assert consumption[..i + 1][..i] == consumption[..i];
      var row := BaselineRowOf(consumption[i], ef);
      if row.Err? {
        assert BaselineRows(consumption[..i + 1], ef).Err?;
        assert consumption[i] in consumption;
        return Err(row.error);
      }
      rows := rows + [row.value];
      i := i + 1;
    }
    assert consumption[..i] == consumption;
    r := Ok(rows);
  }

  /** The column sum `BaselineEmissions_ktCO2_per_year.sum()`. */
  function TotalBaseline(rows: seq<BaselineRow>): real
  {
    Sum(seq(|rows|, i requires 0 <= i < |rows| => rows[i].emissionsKt))
  }

  lemma {:induction false} TotalBaselineNonNegative(rows: seq<BaselineRow>)
    requires forall b :: b in rows ==> b.emissionsKt >= 0.0
    ensures TotalBaseline(rows) >= 0.0
  {
    var e := seq(|rows|, i requires 0 <= i < |rows| => rows[i].emissionsKt);
    forall i | 0 <= i < |e|
      ensures e[i] >= 0.0
    {
      assert rows[i] in rows;
    }
    SumNonNegative(e);
  }

  /**
   * `setup_optimization_problem`'s requirement: total baseline times the
   * year's percentage over 100. The percentage is looked up first (ValueError
   * for an empty target table); with no baseline rows the frame has no
   * `BaselineEmissions_ktCO2_per_year` column (KeyError).
   */
  function RequiredReduction(baselines: seq<BaselineRow>, targets: seq<TargetRow>, year: int): (r: Result<real>)
    ensures r.Err? <==> |targets| == 0 || |baselines| == 0
    ensures r.Err? ==> r.error == (if |targets| == 0 then ValueError else KeyError)
  {
    match ReductionPct(targets, year)
    case Err(e) => Err(e)
    case Ok(pct) =>
      if |baselines| == 0 then Err(KeyError) else Ok(PercentOf(TotalBaseline(baselines), pct))
  }

  /** `total * (pct / 100)`. */
  function PercentOf(total: real, pct: real): real
  {
    total * (pct / 100.0)
  }

  lemma {:induction false} PercentOfWithin(total: real, pct: real)
    requires total >= 0.0 && 0.0 <= pct <= 100.0
    ensures 0.0 <= PercentOf(total, pct) <= total
  {
    MulNonNegative(total, pct / 100.0);
    MulNonNegative(total, 1.0 - pct / 100.0);
  }

  /** With non-negative emissions and percentages between 0 and 100, the requirement is between 0 and the baseline. */
  lemma {:induction false} RequiredWithinBaseline(baselines: seq<BaselineRow>, targets: seq<TargetRow>, year: int)
    requires forall b :: b in baselines ==> b.emissionsKt >= 0.0
    requires forall t :: t in targets ==> 0.0 <= t.reductionPct <= 100.0
    ensures RequiredReduction(baselines, targets, year).Ok? ==>
      0.0 <= RequiredReduction(baselines, targets, year).value <= TotalBaseline(baselines)
  {
    TotalBaselineNonNegative(baselines);
    ReductionPctWithin(targets, year, 0.0, 100.0);
    if |targets| > 0 {
      var pct := ReductionPct(targets, year).value;
      PercentOfWithin(TotalBaseline(baselines), pct);
    }
  }

  // ---------------------------------------------------------------------
  // Technologies and their annual cost
  // ---------------------------------------------------------------------

  /** One facility: its readiness floor, regional labour index and infrastructure score. */
  datatype Facility = Facility(
    facilityId: string,
    company: string,
    region: string,
    trlLevel: int,
    laborCostIndex: real,
    infrastructureScore: real)

  /**
   * One technology joined with its cost row. An energy column the workbook
   * lacks is None: `tech.get(col, 0)` reads it as 0, `tech[col]` raises.
   */
  datatype TechRow = TechRow(
    techId: string,
    techGroup: string,
    technologyCategory: string,
    commercialYear: int,
    technicalReadiness: int,
    lifetimeYears: int,
    capexMillionUsdPerKt: real,
    opexDeltaUsdPerT: real,
    maintenanceCostPct: real,
    naturalGasGjPerT: Option<real>,
    fuelOilGjPerT: Option<real>,
    electricityGjPerT: Option<real>,
    hydrogenGjPerT: Option<real>,
    naphthaTPerT: Option<real>,
    lpgTPerT: Option<real>,
    reformateTPerT: Option<real>)

  /** A technology serves a process if it is of the process's group, commercial by the year and ready enough for the facility. */
  predicate Applicable(tech: TechRow, processType: string, year: int, facility: Facility)
  {
    tech.techGroup == processType && tech.commercialYear <= year && tech.technicalReadiness >= facility.trlLevel
  }

  /** `calculate_alternative_emissions`: the technology's energy use at the process's capacity. */
  function AlternativeEmissions(tech: TechRow, capacityKt: real, ef: EmissionFactors): real
  {
    FuelEmissions(capacityKt, tech.naturalGasGjPerT.GetOr(0.0), ef.naturalGasTPerGj)
    + FuelEmissions(capacityKt, tech.fuelOilGjPerT.GetOr(0.0), ef.fuelOilTPerGj)
    + FuelEmissions(capacityKt, tech.electricityGjPerT.GetOr(0.0), ef.electricityTPerGj)
    + FuelEmissions(capacityKt, tech.hydrogenGjPerT.GetOr(0.0), ef.greenHydrogenTPerGj)
    + FeedstockEmissions(capacityKt, tech.naphthaTPerT.GetOr(0.0), ef.naphthaTPerT)
    + FeedstockEmissions(capacityKt, tech.lpgTPerT.GetOr(0.0), ef.lpgTPerT)
    + FeedstockEmissions(capacityKt, tech.reformateTPerT.GetOr(0.0), ef.reformateTPerT)
  }

  /** Emissions per kt of product with the technology in place. */
  function AlternativeIntensity(tech: TechRow, ef: EmissionFactors): real
  {
    tech.naturalGasGjPerT.GetOr(0.0) * ef.naturalGasTPerGj + tech.fuelOilGjPerT.GetOr(0.0) * ef.fuelOilTPerGj
    + tech.electricityGjPerT.GetOr(0.0) * ef.electricityTPerGj
    + tech.hydrogenGjPerT.GetOr(0.0) * ef.greenHydrogenTPerGj
    + tech.naphthaTPerT.GetOr(0.0) * ef.naphthaTPerT / 1000.0
    + tech.lpgTPerT.GetOr(0.0) * ef.lpgTPerT / 1000.0
    + tech.reformateTPerT.GetOr(0.0) * ef.reformateTPerT / 1000.0
  }

  lemma {:induction false} AlternativeIsCapacityTimesIntensity(tech: TechRow, capacityKt: real, ef: EmissionFactors)
    ensures AlternativeEmissions(tech, capacityKt, ef) == capacityKt * AlternativeIntensity(tech, ef)
  {
    var a := capacityKt;
    FuelLinear(a, tech.naturalGasGjPerT.GetOr(0.0), ef.naturalGasTPerGj);
    FuelLinear(a, tech.fuelOilGjPerT.GetOr(0.0), ef.fuelOilTPerGj);
    FuelLinear(a, tech.electricityGjPerT.GetOr(0.0), ef.electricityTPerGj);
    FuelLinear(a, tech.hydrogenGjPerT.GetOr(0.0), ef.greenHydrogenTPerGj);
    FeedstockLinear(a, tech.naphthaTPerT.GetOr(0.0), ef.naphthaTPerT);
    FeedstockLinear(a, tech.lpgTPerT.GetOr(0.0), ef.lpgTPerT);
    FeedstockLinear(a, tech.reformateTPerT.GetOr(0.0), ef.reformateTPerT);
  }

  /** The script's weighted cost of capital. */
  const DiscountRate := 0.08

  /** The electricity use (GJ per t) an electric technology is compared against. */
  const BaselineElectricityGjPerT := 1.8

  datatype Costs = Costs(
    capexMillionUsd: real,
    annualCapexUsd: real,
    annualOpexUsd: real,
    annualFuelUsd: real,
    annualMaintenanceUsd: real,
    annualCostUsd: real)

  predicate IsElectric(tech: TechRow)
  {
    Strings.Contains(tech.technologyCategory, "Electric") || Strings.Contains(tech.technologyCategory, "E-cracker")
  }

  predicate IsHydrogen(tech: TechRow)
  {
    Strings.Contains(tech.technologyCategory, "H2")
  }

  /** The yearly fuel-cost change: extra electricity for electric technologies, hydrogen for H2 ones, else none. */
  function FuelCostDelta(tech: TechRow, capacityKt: real, fc: FuelCosts): (r: Result<real>)
    ensures r.Err? <==> (IsElectric(tech) && tech.electricityGjPerT.None?) || (!IsElectric(tech) && IsHydrogen(tech) && tech.hydrogenGjPerT.None?)
    ensures r.Err? ==> r.error == KeyError
    ensures !IsElectric(tech) && !IsHydrogen(tech) ==> r == Ok(0.0)
  {
    if IsElectric(tech) then
      match tech.electricityGjPerT
      case None => Err(KeyError)
      case Some(e) => Ok(capacityKt * (e - BaselineElectricityGjPerT) * 1000.0 * fc.electricityUsdPerGj)
    else if IsHydrogen(tech) then
      match tech.hydrogenGjPerT
      case None => Err(KeyError)
      case Some(h) => Ok(capacityKt * h * 1000.0 * fc.greenHydrogenUsdPerGj)
    else Ok(0.0)
  }

  /**
   * `calculate_technology_costs`: capex scaled by the regional labour index,
   * annualised at 8 %, plus opex, fuel and maintenance. A zero lifetime makes
   * the annuity divide by zero.
   */
  function TechnologyCosts(tech: TechRow, capacityKt: real, fc: FuelCosts, facility: Facility): (r: Result<Costs>)
    ensures r.Err? ==> r.error == ZeroDivisionError || r.error == KeyError
    ensures tech.lifetimeYears == 0 ==> r == Err(ZeroDivisionError)
  {
    var adjusted := tech.capexMillionUsdPerKt * capacityKt * (facility.laborCostIndex / 100.0);
    match Finance.Crf(DiscountRate, tech.lifetimeYears)
    case Err(e) => Err(e)
    case Ok(annuity) =>
      match FuelCostDelta(tech, capacityKt, fc)
      case Err(e) => Err(e)
      case Ok(fuel) =>
        var annualCapex := adjusted * 1000000.0 * annuity;
        var opex := tech.opexDeltaUsdPerT * capacityKt * 1000.0;
        var maintenance := adjusted * 1000000.0 * (tech.maintenanceCostPct / 100.0);
        Ok(Costs(adjusted, annualCapex, opex, fuel, maintenance, annualCapex + opex + fuel + maintenance))
  }

  lemma {:induction false} CrfZeroLife(rate: real)
    ensures Finance.Crf(rate, 0) == Err(ZeroDivisionError)
  {
    assert IntPow(1.0 + rate, 0) == Some(1.0);
  }

  lemma {:induction false} InverseCancels(x: real, c: real, a: real)
    requires c * a == 1.0
    ensures x * c * a == x
  {
    assert x * c * a == x * (c * a);
  }

  /**
   * With a lifetime of a year or more, costs fail only for a missing energy
   * column, and the annual capex repays the regional capex: discounted at 8 %
   * over the lifetime it sums to exactly the capex in USD.
   */
  lemma {:induction false} AnnualCapexRepays(tech: TechRow, capacityKt: real, fc: FuelCosts, facility: Facility)
    requires tech.lifetimeYears >= 1
    ensures TechnologyCosts(tech, capacityKt, fc, facility).Err? <==> FuelCostDelta(tech, capacityKt, fc).Err?
    ensures TechnologyCosts(tech, capacityKt, fc, facility).Ok? ==>
      var c := TechnologyCosts(tech, capacityKt, fc, facility).value;
      c.annualCapexUsd * Finance.AnnuityFactor(DiscountRate, tech.lifetimeYears) == c.capexMillionUsd * 1000000.0
  {
    Finance.CrfAnnuity(DiscountRate, tech.lifetimeYears);
    var crf := Finance.Crf(DiscountRate, tech.lifetimeYears).value;
    var adjusted := tech.capexMillionUsdPerKt * capacityKt * (facility.laborCostIndex / 100.0);
    InverseCancels(adjusted * 1000000.0, crf, Finance.AnnuityFactor(DiscountRate, tech.lifetimeYears));
  }

  /** The capex is the unadjusted capex times the labour index over the reference index 100. */
  lemma {:induction false} CapexFollowsLaborIndex(tech: TechRow, capacityKt: real, fc: FuelCosts, facility: Facility)
    requires TechnologyCosts(tech, capacityKt, fc, facility).Ok?
    ensures TechnologyCosts(tech, capacityKt, fc, facility).value.capexMillionUsd * 100.0
         == tech.capexMillionUsdPerKt * capacityKt * facility.laborCostIndex
  {
    var base := tech.capexMillionUsdPerKt * capacityKt;
    assert base * (facility.laborCostIndex / 100.0) * 100.0 == base * facility.laborCostIndex;
  }

  // ---------------------------------------------------------------------
  // Deployment options
  // ---------------------------------------------------------------------

  /** One (facility, process, technology) option; the abatement rate is None for zero capacity (numpy inf/NaN). */
  datatype DeploymentOption = DeploymentOption(
    facilityId: string,
    company: string,
    region: string,
    processType: string,
    techId: string,
    technologyCategory: string,
    capacityKt: real,
    baselineKt: real,
    alternativeKt: real,
    abatementKt: real,
    abatementRate: Option<real>,
    capexMillionUsd: real,
    annualCostUsd: real,
    lcoa: ExtReal,
    technicalReadiness: int,
    commercialYear: int,
    infrastructureScore: real)

  /** Levelised cost of abatement: infinite unless the option abates something. */
  function Lcoa(annualCostUsd: real, abatementKt: real): (l: ExtReal)
    ensures l.Infinite? <==> abatementKt <= 0.0
    ensures l.Finite? ==> l.v * abatementKt == annualCostUsd
  {
    if abatementKt > 0.0 then Finite(annualCostUsd / abatementKt) else Infinite
  }

  /** The option one applicable technology gives one process row. */
  function OptionOf(facility: Facility, row: ConsumptionRow, tech: TechRow, ef: EmissionFactors, fc: FuelCosts): (r: Result<DeploymentOption>)
    ensures r.Err? <==> TechnologyCosts(tech, row.activityKt, fc, facility).Err?
  {
    var baseline := ProcessBaselineEmissions(row, ef);
    var alternative := AlternativeEmissions(tech, row.activityKt, ef);
    match TechnologyCosts(tech, row.activityKt, fc, facility)
    case Err(e) => Err(e)
    case Ok(c) =>
      var abatement := baseline - alternative;
      Ok(DeploymentOption(
        facility.facilityId, facility.company, facility.region, row.processType, tech.techId,
        tech.technologyCategory, row.activityKt, baseline, alternative, abatement,
        if row.activityKt == 0.0 then None else Some(abatement / row.activityKt),
        c.capexMillionUsd, c.annualCostUsd, Lcoa(c.annualCostUsd, abatement),
        tech.technicalReadiness, tech.commercialYear, facility.infrastructureScore))
  }

  lemma {:induction false} GapOfProducts(a: real, b: real, c: real, gap: real)
    requires gap == a * b - a * c
    ensures gap == a * (b - c)
    ensures a != 0.0 ==> gap / a == b - c
  {
    assert a * b - a * c == a * (b - c);
  }

  /** The abatement rate is the gap between the two intensities, whatever the capacity. */
  lemma {:induction false} AbatementRateIsIntensityGap(facility: Facility, row: ConsumptionRow, tech: TechRow, ef: EmissionFactors, fc: FuelCosts)
    requires OptionOf(facility, row, tech, ef, fc).Ok?
    ensures var o := OptionOf(facility, row, tech, ef, fc).value;
      o.abatementKt == row.activityKt * (BaselineIntensity(row, ef) - AlternativeIntensity(tech, ef)) &&
      (row.activityKt != 0.0 ==> o.abatementRate == Some(BaselineIntensity(row, ef) - AlternativeIntensity(tech, ef)))
  {
    BaselineIsActivityTimesIntensity(row, ef);
    AlternativeIsCapacityTimesIntensity(tech, row.activityKt, ef);
    var o := OptionOf(facility, row, tech, ef, fc).value;
    GapOfProducts(row.activityKt, BaselineIntensity(row, ef), AlternativeIntensity(tech, ef), o.abatementKt);
  }

  /** The ceiling on a viable option's cost per t of CO2. */
  const MaxLcoaUsdPerT := 25000.0

  /** Positive abatement and `0 < LCOA < 25000`; an infinite LCOA fails `< 25000`. */
  predicate Viable(o: DeploymentOption)
  {
    o.abatementKt > 0.0 && o.lcoa.Finite? && o.lcoa.v < MaxLcoaUsdPerT && o.lcoa.v > 0.0
  }

  lemma {:induction false} QuotientBelow(c: real, a: real, m: real)
    requires a > 0.0
    ensures c / a < m <==> c < m * a
    ensures c / a > 0.0 <==> c > 0.0
  {
    assert c == (c / a) * a;
    if c / a < m {
      assert (c / a) * a < m * a;
    }
    if c < m * a {
      assert (c / a) * a < m * a;
    }
  }

  /** An option is viable exactly when it abates and costs between 0 and 25000 USD per t abated. */
  lemma {:induction false} ViableMeaning(facility: Facility, row: ConsumptionRow, tech: TechRow, ef: EmissionFactors, fc: FuelCosts)
    requires OptionOf(facility, row, tech, ef, fc).Ok?
    ensures var o := OptionOf(facility, row, tech, ef, fc).value;
      Viable(o) <==> o.abatementKt > 0.0 && 0.0 < o.annualCostUsd < MaxLcoaUsdPerT * o.abatementKt
  {
    var o := OptionOf(facility, row, tech, ef, fc).value;
    if o.abatementKt > 0.0 {
      QuotientBelow(o.annualCostUsd, o.abatementKt, MaxLcoaUsdPerT);
    }
  }

  /**
   * The nested loops' collection: each element's options in order, the first
   * exception ending the loop.
   */
  function Collect<T(==,!new)>(xs: seq<T>, piece: T -> Result<seq<DeploymentOption>>): (r: Result<seq<DeploymentOption>>)
    ensures r.Ok? <==> forall x :: x in xs ==> piece(x).Ok?
    ensures r.Ok? ==> forall o :: o in r.value ==> exists x :: x in xs && piece(x).Ok? && o in piece(x).value
    ensures r.Ok? ==> forall x, o :: x in xs && piece(x).Ok? && o in piece(x).value ==> o in r.value
    decreases |xs|
  {
    if |xs| == 0 then Ok([])
    else
      var init, x := xs[..|xs| - 1], xs[|xs| - 1];
      var prev := Collect(init, piece);
      assert xs == init + [x];
      assert forall y :: y in xs <==> y in init || y == x;
      if prev.Err? then
        assert exists y :: y in init && piece(y).Err?;
        prev
      else if piece(x).Err? then Err(piece(x).error)
      else Ok(prev.value + piece(x).value)
  }

  /** Once the loop has failed, the rest of it changes nothing. */
  lemma {:induction false} CollectFailed<T(!new)>(xs: seq<T>, piece: T -> Result<seq<DeploymentOption>>, k: nat)
    requires k <= |xs| && Collect(xs[..k], piece).Err?
    ensures Collect(xs, piece) == Collect(xs[..k], piece)
    decreases |xs|
  {
    if k < |xs| {
      var init := xs[..|xs| - 1];
      assert init[..k] == xs[..k];
      CollectFailed(init, piece, k);
    } else {
      assert xs[..k] == xs;
    }
  }

  /** The option of one technology for one process row, if it applies. */
  function TechOption(facility: Facility, row: ConsumptionRow, year: int, ef: EmissionFactors, fc: FuelCosts, tech: TechRow): Result<seq<DeploymentOption>>
  {
    if !Applicable(tech, row.processType, year, facility) then Ok([])
    else
      match OptionOf(facility, row, tech, ef, fc)
      case Err(e) => Err(e)
      case Ok(o) => Ok([o])
  }

  function TechPiece(facility: Facility, row: ConsumptionRow, year: int, ef: EmissionFactors, fc: FuelCosts): TechRow -> Result<seq<DeploymentOption>>
  {
    tech => TechOption(facility, row, year, ef, fc, tech)
  }

  /** The options of one consumption row: none unless it belongs to the facility. */
  function RowOptions(facility: Facility, techs: seq<TechRow>, year: int, ef: EmissionFactors, fc: FuelCosts, row: ConsumptionRow): Result<seq<DeploymentOption>>
  {
    if row.facilityId != facility.facilityId then Ok([]) else Collect(techs, TechPiece(facility, row, year, ef, fc))
  }

  function RowPiece(facility: Facility, techs: seq<TechRow>, year: int, ef: EmissionFactors, fc: FuelCosts): ConsumptionRow -> Result<seq<DeploymentOption>>
  {
    row => RowOptions(facility, techs, year, ef, fc, row)
  }

  function FacilityPiece(consumption: seq<ConsumptionRow>, techs: seq<TechRow>, year: int, ef: EmissionFactors, fc: FuelCosts): Facility -> Result<seq<DeploymentOption>>
  {
    facility => Collect(consumption, RowPiece(facility, techs, year, ef, fc))
  }

  /** Every option before the viability filter, facility by facility, row by row, technology by technology. */
  function AllOptions(facilities: seq<Facility>, consumption: seq<ConsumptionRow>, techs: seq<TechRow>, year: int, ef: EmissionFactors, fc: FuelCosts): Result<seq<DeploymentOption>>
  {
    Collect(facilities, FacilityPiece(consumption, techs, year, ef, fc))
  }

  /** The viable options, in order. */
  function ViableOnly(options: seq<DeploymentOption>): (r: seq<DeploymentOption>)
    ensures forall o :: o in r <==> o in options && Viable(o)
    decreases |options|
  {
    if |options| == 0 then []
    else
      var init, o := options[..|options| - 1], options[|options| - 1];
      assert options == init + [o];
      ViableOnly(init) + (if Viable(o) then [o] else [])
  }

  /**
   * `create_facility_technology_options`: the year's factors and fuel costs
   * (an IndexError when missing), every option, then the viable ones. With no
   * option at all the empty frame has no columns and the filter raises a
   * KeyError.
   */
  function CreateOptions(facilities: seq<Facility>, consumption: seq<ConsumptionRow>, techs: seq<TechRow>,
                         efs: seq<EmissionFactors>, fcs: seq<FuelCosts>, year: int): (r: Result<seq<DeploymentOption>>)
    ensures r.Ok? ==> forall o :: o in r.value ==> Viable(o)
  {
    match FactorsFor(efs, year)
    case Err(e) => Err(e)
    case Ok(ef) =>
      match FuelCostsFor(fcs, year)
      case Err(e) => Err(e)
      case Ok(fc) =>
        match AllOptions(facilities, consumption, techs, year, ef, fc)
        case Err(e) => Err(e)
        case Ok(all) => if |all| == 0 then Err(KeyError) else Ok(ViableOnly(all))
  }

  /** Every option comes from an applicable technology for a process row of one of the facilities, and is viable. */
  lemma {:induction false} OptionsSound(facilities: seq<Facility>, consumption: seq<ConsumptionRow>, techs: seq<TechRow>,
                                         efs: seq<EmissionFactors>, fcs: seq<FuelCosts>, year: int)
    requires CreateOptions(facilities, consumption, techs, efs, fcs, year).Ok?
    ensures var ef, fc := FactorsFor(efs, year).value, FuelCostsFor(fcs, year).value;
      forall o :: o in CreateOptions(facilities, consumption, techs, efs, fcs, year).value ==>
        Viable(o) &&
        (exists f, row, tech :: f in facilities && row in consumption && tech in techs &&
           row.facilityId == f.facilityId && Applicable(tech, row.processType, year, f) &&
           OptionOf(f, row, tech, ef, fc) == Ok(o))
  {
    var ef, fc := FactorsFor(efs, year).value, FuelCostsFor(fcs, year).value;
    var all := AllOptions(facilities, consumption, techs, year, ef, fc).value;
    forall o | o in CreateOptions(facilities, consumption, techs, efs, fcs, year).value
      ensures exists f, row, tech ::
        f in facilities && row in consumption && tech in techs &&
        row.facilityId == f.facilityId && Applicable(tech, row.processType, year, f) &&
        OptionOf(f, row, tech, ef, fc) == Ok(o)
    {
      assert o in all;
      var f :| f in facilities && FacilityPiece(consumption, techs, year, ef, fc)(f).Ok? && o in FacilityPiece(consumption, techs, year, ef, fc)(f).value;
      var rows := Collect(consumption, RowPiece(f, techs, year, ef, fc));
      var row :| row in consumption && RowPiece(f, techs, year, ef, fc)(row).Ok? && o in RowPiece(f, techs, year, ef, fc)(row).value;
      assert row.facilityId == f.facilityId;
      var tech :| tech in techs && TechPiece(f, row, year, ef, fc)(tech).Ok? && o in TechPiece(f, row, year, ef, fc)(tech).value;
      assert Applicable(tech, row.processType, year, f);
    }
  }

  /** Conversely, every viable option of an applicable technology for a facility's process row is offered. */
  lemma {:induction false} OptionsComplete(facilities: seq<Facility>, consumption: seq<ConsumptionRow>, techs: seq<TechRow>,
                                            efs: seq<EmissionFactors>, fcs: seq<FuelCosts>, year: int,
                                            f: Facility, row: ConsumptionRow, tech: TechRow)
    requires CreateOptions(facilities, consumption, techs, efs, fcs, year).Ok?
    requires f in facilities && row in consumption && tech in techs
    requires row.facilityId == f.facilityId && Applicable(tech, row.processType, year, f)
    ensures var o := OptionOf(f, row, tech, FactorsFor(efs, year).value, FuelCostsFor(fcs, year).value);
      o.Ok? && (Viable(o.value) ==> o.value in CreateOptions(facilities, consumption, techs, efs, fcs, year).value)
  {
    var ef, fc := FactorsFor(efs, year).value, FuelCostsFor(fcs, year).value;
    var all := AllOptions(facilities, consumption, techs, year, ef, fc).value;
    assert FacilityPiece(consumption, techs, year, ef, fc)(f).Ok?;
    assert RowPiece(f, techs, year, ef, fc)(row).Ok?;
    assert TechPiece(f, row, year, ef, fc)(tech).Ok?;
    var o := OptionOf(f, row, tech, ef, fc).value;
    assert o in TechPiece(f, row, year, ef, fc)(tech).value;
    assert o in RowPiece(f, techs, year, ef, fc)(row).value;
    assert o in FacilityPiece(consumption, techs, year, ef, fc)(f).value;
    assert o in all;
  }

  /** The technology loop for one process row. */
  method TechOptionsLoop(facility: Facility, row: ConsumptionRow, techs: seq<TechRow>, year: int, ef: EmissionFactors, fc: FuelCosts)
    returns (r: Result<seq<DeploymentOption>>)
    ensures r == Collect(techs, TechPiece(facility, row, year, ef, fc))
  {
    var options: seq<DeploymentOption> := [];
    var k := 0;
    while k < |techs|
      invariant 0 <= k <= |techs|
      invariant Collect(techs[..k], TechPiece(facility, row, year, ef, fc)) == Ok(options)
    {
      var tech := techs[k];
      assert techs[..k + 1][..k] == techs[..k];
      ghost var piece := TechPiece(facility, row, year, ef, fc);
      assert piece(tech) == TechOption(facility, row, year, ef, fc, tech);
      if Applicable(tech, row.processType, year, facility) {
        var option := OptionOf(facility, row, tech, ef, fc);
        if option.Err? {
          CollectFailed(techs, piece, k + 1);
          return Err(option.error);
        }
        options := options + [option.value];
      } else {
        assert options + [] == options;
      }
      k := k + 1;
    }
    assert techs[..k] == techs;
    return Ok(options);
  }

  /** The process-row loop for one facility. */
  method RowOptionsLoop(facility: Facility, consumption: seq<ConsumptionRow>, techs: seq<TechRow>, year: int, ef: EmissionFactors, fc: FuelCosts)
    returns (r: Result<seq<DeploymentOption>>)
    ensures r == FacilityPiece(consumption, techs, year, ef, fc)(facility)
  {
    var options: seq<DeploymentOption> := [];
    var j := 0;
    while j < |consumption|
      invariant 0 <= j <= |consumption|
      invariant Collect(consumption[..j], RowPiece(facility, techs, year, ef, fc)) == Ok(options)
    {
      var row := consumption[j];
      assert consumption[..j + 1][..j] == consumption[..j];
      ghost var piece := RowPiece(facility, techs, year, ef, fc);
      assert piece(row) == RowOptions(facility, techs, year, ef, fc, row);
      if row.facilityId == facility.facilityId {
        var more := TechOptionsLoop(facility, row, techs, year, ef, fc);
        if more.Err? {
          CollectFailed(consumption, piece, j + 1);
          return Err(more.error);
        }
        options := options + more.value;
      } else {
        assert options + [] == options;
      }
      j := j + 1;
    }
    assert consumption[..j] == consumption;
    return Ok(options);
  }

  /** `create_facility_technology_options`, loop by loop. */
  method CreateFacilityTechnologyOptions(facilities: seq<Facility>, consumption: seq<ConsumptionRow>, techs: seq<TechRow>,
                                         efs: seq<EmissionFactors>, fcs: seq<FuelCosts>, year: int)
    returns (r: Result<seq<DeploymentOption>>)
    ensures r == CreateOptions(facilities, consumption, techs, efs, fcs, year)
  {
    var efFound := FactorsFor(efs, year);
    if efFound.Err? {
      return Err(efFound.error);
    }
    var fcFound := FuelCostsFor(fcs, year);
    if fcFound.Err? {
      return Err(fcFound.error);
    }
    var ef, fc := efFound.value, fcFound.value;
    var all: seq<DeploymentOption> := [];
    var i := 0;
    while i < |facilities|
      invariant 0 <= i <= |facilities|
      invariant Collect(facilities[..i], FacilityPiece(consumption, techs, year, ef, fc)) == Ok(all)
    {
      assert facilities[..i + 1][..i] == facilities[..i];
      var more := RowOptionsLoop(facilities[i], consumption, techs, year, ef, fc);
      if more.Err? {
        CollectFailed(facilities, FacilityPiece(consumption, techs, year, ef, fc), i + 1);
        return Err(more.error);
      }
      all := all + more.value;
      i := i + 1;
    }
    assert facilities[..i] == facilities;
    if |all| == 0 {
      return Err(KeyError);
    }
    return Ok(ViableOnly(all));
  }

  // ---------------------------------------------------------------------
  // The LP over deployment levels
  // ---------------------------------------------------------------------

  /** The deployment variable's key: rows with the same key share one variable. */
  datatype OptionKey = OptionKey(facilityId: string, processType: string, techId: string)

  function KeyOf(o: DeploymentOption): OptionKey
  {
    OptionKey(o.facilityId, o.processType, o.techId)
  }

  /** A value for every deployment variable. */
  type Levels = OptionKey -> real

  /** The objective: the annual cost of the options, each times its level. */
  function TotalCost(options: seq<DeploymentOption>, x: Levels): real
    decreases |options|
  {
    if |options| == 0 then 0.0
    else TotalCost(options[..|options| - 1], x) + options[|options| - 1].annualCostUsd * x(KeyOf(options[|options| - 1]))
  }

  /** The abatement the levels achieve. */
  function TotalAbatement(options: seq<DeploymentOption>, x: Levels): real
    decreases |options|
  {
    if |options| == 0 then 0.0
    else TotalAbatement(options[..|options| - 1], x) + options[|options| - 1].abatementKt * x(KeyOf(options[|options| - 1]))
  }

  /** The summed level of the options at one facility's process. */
  function SiteLevel(options: seq<DeploymentOption>, x: Levels, facilityId: string, processType: string): real
    decreases |options|
  {
    if |options| == 0 then 0.0
    else
      var o := options[|options| - 1];
      SiteLevel(options[..|options| - 1], x, facilityId, processType)
      + (if o.facilityId == facilityId && o.processType == processType then x(KeyOf(o)) else 0.0)
  }

  /** The readiness level from which an option counts as mature. */
  const HighTrl := 7

  /** The last year of the readiness rule. */
  const TrlRuleLastYear := 2030

  const HighTrlFraction := 0.7

  function HighTrlCount(options: seq<DeploymentOption>): nat
    decreases |options|
  {
    if |options| == 0 then 0
    else HighTrlCount(options[..|options| - 1]) + (if options[|options| - 1].technicalReadiness >= HighTrl then 1 else 0)
  }

  function HighTrlLevel(options: seq<DeploymentOption>, x: Levels): real
    decreases |options|
  {
    if |options| == 0 then 0.0
    else
      var o := options[|options| - 1];
      HighTrlLevel(options[..|options| - 1], x) + (if o.technicalReadiness >= HighTrl then x(KeyOf(o)) else 0.0)
  }

  function TotalLevel(options: seq<DeploymentOption>, x: Levels): real
    decreases |options|
  {
    if |options| == 0 then 0.0
    else TotalLevel(options[..|options| - 1], x) + x(KeyOf(options[|options| - 1]))
  }

  /** How many mature options are deployed at all. */
  function DeployedHighTrl(options: seq<DeploymentOption>, x: Levels): nat
    decreases |options|
  {
    if |options| == 0 then 0
    else
      var o := options[|options| - 1];
      DeployedHighTrl(options[..|options| - 1], x) + (if o.technicalReadiness >= HighTrl && x(KeyOf(o)) > 0.0 then 1 else 0)
  }

  /** Every variable lies in [0, 1]. */
  predicate InBounds(options: seq<DeploymentOption>, x: Levels)
  {
    forall o :: o in options ==> 0.0 <= x(KeyOf(o)) <= 1.0
  }

  predicate MeetsTarget(options: seq<DeploymentOption>, x: Levels, required: real)
  {
    TotalAbatement(options, x) >= required
  }

  /** At most one technology per facility-process pair: its options' levels sum to at most 1. */
  predicate OneTechPerSite(options: seq<DeploymentOption>, x: Levels)
  {
    forall o :: o in options ==> SiteLevel(options, x, o.facilityId, o.processType) <= 1.0
  }

  /** The readiness constraint as written: up to 2030 the mature options' levels sum to 0.7 times their number. */
  predicate TrlPreference(options: seq<DeploymentOption>, x: Levels, year: int)
  {
    year <= TrlRuleLastYear && HighTrlCount(options) > 0 ==> HighTrlLevel(options, x) >= HighTrlFraction * HighTrlCount(options) as real
  }

  predicate FeasibleAsWritten(options: seq<DeploymentOption>, x: Levels, required: real, year: int)
  {
    InBounds(options, x) && MeetsTarget(options, x, required) && OneTechPerSite(options, x) && TrlPreference(options, x, year)
  }

  /** The readiness constraint as meant: up to 2030 mature options carry at least 70 % of the deployment. */
  predicate HighTrlShare(options: seq<DeploymentOption>, x: Levels, year: int)
  {
    year <= TrlRuleLastYear ==> HighTrlLevel(options, x) >= HighTrlFraction * TotalLevel(options, x)
  }

  /** The LP's constraints, with the readiness rule as meant. */
  predicate Feasible(options: seq<DeploymentOption>, x: Levels, required: real, year: int)
  {
    InBounds(options, x) && MeetsTarget(options, x, required) && OneTechPerSite(options, x) && HighTrlShare(options, x, year)
  }

  /** Within the bounds, the mature options' summed level is at most the number of them deployed. */
  lemma {:induction false} HighTrlLevelAtMostDeployed(options: seq<DeploymentOption>, x: Levels)
    requires InBounds(options, x)
    ensures HighTrlLevel(options, x) <= DeployedHighTrl(options, x) as real
    decreases |options|
  {
    if |options| > 0 {
      var init, o := options[..|options| - 1], options[|options| - 1];
      assert forall p :: p in init ==> p in options;
      assert o in options;
      HighTrlLevelAtMostDeployed(init, x);
    }
  }

  /** The rule as written forces at least 70 % of the mature options into deployment, each at some level. */
  lemma {:induction false} TrlPreferenceDeploysMost(options: seq<DeploymentOption>, x: Levels, year: int)
    requires InBounds(options, x) && TrlPreference(options, x, year)
    requires year <= TrlRuleLastYear
    ensures DeployedHighTrl(options, x) as real >= HighTrlFraction * HighTrlCount(options) as real
  {
    HighTrlLevelAtMostDeployed(options, x);
  }

  /** An option of the counterexample: one NCC process at one facility. */
  function SampleOption(techId: string): DeploymentOption
  {
    DeploymentOption("F001", "C", "R", "NCC", techId, "Electric cracker", 100.0, 50.0, 10.0, 40.0, Some(0.4),
                     10.0, 4000000.0, Finite(100000.0), 9, 2025, 1.0)
  }

  /**
   * Two mature technologies for the same facility process in 2030: the rule
   * as written asks their levels to sum to 1.4 while one technology per site
   * caps the sum at 1, so no levels satisfy the constraints.
   */
  lemma {:induction false} TrlPreferenceInfeasible(x: Levels)
    ensures var options := [SampleOption("T1"), SampleOption("T2")];
      !(InBounds(options, x) && OneTechPerSite(options, x) && TrlPreference(options, x, 2030))
  {
    var options := [SampleOption("T1"), SampleOption("T2")];
    var o1, o2 := options[0], options[1];
    assert options[..1] == [o1];
    assert [o1][..0] == [];
    assert HighTrlCount(options) == 2;
    assert HighTrlLevel(options, x) == x(KeyOf(o1)) + x(KeyOf(o2));
    assert SiteLevel(options, x, "F001", "NCC") == x(KeyOf(o1)) + x(KeyOf(o2));
    assert o1 in options;
  }

  /** Levels that deploy only mature options meet the readiness rule as meant. */
  lemma {:induction false} MatureOnlyMeetsShare(options: seq<DeploymentOption>, x: Levels, year: int)
    requires InBounds(options, x)
    requires forall o :: o in options && o.technicalReadiness < HighTrl ==> x(KeyOf(o)) == 0.0
    ensures HighTrlLevel(options, x) == TotalLevel(options, x) >= 0.0
    ensures HighTrlShare(options, x, year)
    decreases |options|
  {
    if |options| > 0 {
      var init, o := options[..|options| - 1], options[|options| - 1];
      assert forall p :: p in init ==> p in options;
      assert o in options;
      MatureOnlyMeetsShare(init, x, year);
    }
  }

  /** Under the rule as meant, the mature options' share of a positive total deployment is at least 70 %. */
  lemma {:induction false} HighTrlShareMeaning(options: seq<DeploymentOption>, x: Levels, year: int)
    requires HighTrlShare(options, x, year) && year <= TrlRuleLastYear
    requires TotalLevel(options, x) > 0.0
    ensures HighTrlLevel(options, x) / TotalLevel(options, x) >= HighTrlFraction
  {
    QuotientBelow(HighTrlLevel(options, x), TotalLevel(options, x), HighTrlFraction);
  }

  /** The counterexample's options are feasible under the rule as meant: one mature technology at full level. */
  lemma {:induction false} HighTrlShareSampleFeasible()
    ensures var options := [SampleOption("T1"), SampleOption("T2")];
      var x := (k: OptionKey) => if k.techId == "T1" then 1.0 else 0.0;
      InBounds(options, x) && OneTechPerSite(options, x) && HighTrlShare(options, x, 2030)
  {
    var options := [SampleOption("T1"), SampleOption("T2")];
    var x := (k: OptionKey) => if k.techId == "T1" then 1.0 else 0.0;
    var o1, o2 := options[0], options[1];
    assert "T2" != "T1" by {
      assert "T2"[1] != "T1"[1];
    }
    assert options[..1] == [o1];
    assert [o1][..0] == [];
    assert x(KeyOf(o1)) == 1.0 && x(KeyOf(o2)) == 0.0;
    assert SiteLevel(options, x, "F001", "NCC") == 1.0;
    MatureOnlyMeetsShare(options, x, 2030);
  }

  // ---------------------------------------------------------------------
  // Reading the solution back
  // ---------------------------------------------------------------------

  /** One reported deployment: the option scaled by its level. */
  datatype Deployment = Deployment(
    facilityId: string,
    company: string,
    region: string,
    processType: string,
    techId: string,
    technologyCategory: string,
    capacityKt: real,
    level: real,
    deployedCapacityKt: real,
    abatementKt: real,
    annualCostUsd: real,
    lcoa: ExtReal)

  /** Levels at or below this are not reported. */
  const SignificantLevel := 0.01

  function DeploymentOf(o: DeploymentOption, level: real): Deployment
  {
    Deployment(o.facilityId, o.company, o.region, o.processType, o.techId, o.technologyCategory, o.capacityKt,
               level, o.capacityKt * level, o.abatementKt * level, o.annualCostUsd * level, o.lcoa)
  }

  /** The options whose variable has a value above 1 %, in order, each scaled by that value. */
  function Extracted(options: seq<DeploymentOption>, value: OptionKey -> Option<real>): seq<Deployment>
    decreases |options|
  {
    if |options| == 0 then []
    else
      var o := options[|options| - 1];
      Extracted(options[..|options| - 1], value)
      + (match value(KeyOf(o))
         case Some(level) => if level > SignificantLevel then [DeploymentOf(o, level)] else []
         case None => [])
  }

  /** `solve_optimization`: the solver's values are given; a status other than optimal reports nothing. */
  method SolveOptimization(options: seq<DeploymentOption>, value: OptionKey -> Option<real>, optimal: bool)
    returns (rows: seq<Deployment>)
    ensures rows == (if optimal then Extracted(options, value) else [])
  {
    rows := [];
    if !optimal {
      return;
    }
    var i := 0;
    while i < |options|
      invariant 0 <= i <= |options|
      invariant rows == Extracted(options[..i], value)
    {
      var o := options[i];
      assert options[..i + 1][..i] == options[..i];
      var level := value(KeyOf(o));
      if level.Some? && level.value > SignificantLevel {
        rows := rows + [DeploymentOf(o, level.value)];
      }
      i := i + 1;
    }
    assert options[..i] == options;
  }

  /** A row is reported exactly for an option whose variable has a value above 1 %, scaled by that value. */
  lemma {:induction false} ExtractedRows(options: seq<DeploymentOption>, value: OptionKey -> Option<real>)
    ensures forall d :: d in Extracted(options, value) <==>
      exists o :: o in options && value(KeyOf(o)).Some? && value(KeyOf(o)).value > SignificantLevel &&
        d == DeploymentOf(o, value(KeyOf(o)).value)
    decreases |options|
  {
    if |options| > 0 {
      var init, o := options[..|options| - 1], options[|options| - 1];
      assert options == init + [o];
      assert forall p :: p in options <==> p in init || p == o;
      ExtractedRows(init, value);
    }
  }

  /**
   * A reported row never exceeds its option: within [0, 1] the deployed
   * capacity and abatement are at most the option's, and the reported LCOA is
   * still the cost per t abated.
   */
  lemma {:induction false} DeploymentWithinOption(o: DeploymentOption, level: real)
    requires 0.0 <= level <= 1.0 && o.capacityKt >= 0.0 && o.abatementKt >= 0.0
    requires o.lcoa == Lcoa(o.annualCostUsd, o.abatementKt)
    ensures var d := DeploymentOf(o, level);
      d.deployedCapacityKt <= o.capacityKt && d.abatementKt <= o.abatementKt &&
      (d.lcoa.Finite? ==> d.lcoa.v * d.abatementKt == d.annualCostUsd)
  {
    MulNonNegative(o.capacityKt, 1.0 - level);
    MulNonNegative(o.abatementKt, 1.0 - level);
    if o.lcoa.Finite? {
      assert o.lcoa.v * o.abatementKt == o.annualCostUsd;
      assert o.lcoa.v * (o.abatementKt * level) == (o.lcoa.v * o.abatementKt) * level;
    }
  }

  /** The options' total potential abatement. */
  function PotentialTotal(options: seq<DeploymentOption>): real
    decreases |options|
  {
    if |options| == 0 then 0.0 else PotentialTotal(options[..|options| - 1]) + options[|options| - 1].abatementKt
  }

  function ReportedAbatement(rows: seq<Deployment>): real
    decreases |rows|
  {
    if |rows| == 0 then 0.0 else ReportedAbatement(rows[..|rows| - 1]) + rows[|rows| - 1].abatementKt
  }

  lemma {:induction false} ReportedAbatementAppend(rows: seq<Deployment>, more: seq<Deployment>)
    ensures ReportedAbatement(rows + more) == ReportedAbatement(rows) + ReportedAbatement(more)
    decreases |more|
  {
    if |more| > 0 {
      assert (rows + more)[..|rows + more| - 1] == rows + more[..|more| - 1];
      ReportedAbatementAppend(rows, more[..|more| - 1]);
    } else {
      assert rows + more == rows;
    }
  }

  /** The abatement of the reported rows, computed over the options. */
  function ReportedAbatementOf(options: seq<DeploymentOption>, value: OptionKey -> Option<real>): real
    decreases |options|
  {
    if |options| == 0 then 0.0
    else
      var o := options[|options| - 1];
      ReportedAbatementOf(options[..|options| - 1], value)
      + (match value(KeyOf(o))
         case Some(level) => if level > SignificantLevel then o.abatementKt * level else 0.0
         case None => 0.0)
  }

  /** Summing the reported rows' abatement gives the same as summing over the options. */
  lemma {:induction false} ReportedAbatementOfRows(options: seq<DeploymentOption>, value: OptionKey -> Option<real>)
    ensures ReportedAbatement(Extracted(options, value)) == ReportedAbatementOf(options, value)
    decreases |options|
  {
    if |options| > 0 {
      var init, o := options[..|options| - 1], options[|options| - 1];
      ReportedAbatementOfRows(init, value);
      match value(KeyOf(o))
      case Some(level) =>
        if level > SignificantLevel {
          var d := DeploymentOf(o, level);
          assert Extracted(options, value) == Extracted(init, value) + [d];
          ReportedAbatementAppend(Extracted(init, value), [d]);
          assert [d][..0] == [];
          assert ReportedAbatement([d]) == d.abatementKt;
        } else {
          assert Extracted(options, value) == Extracted(init, value);
        }
      case None =>
        assert Extracted(options, value) == Extracted(init, value);
    }
  }

  /** One option's contribution to the reported abatement is its solved abatement less at most 1 % of its potential. */
  lemma {:induction false} ReportedContribution(a: real, level: real)
    requires a >= 0.0 && 0.0 <= level
    ensures (if level > SignificantLevel then a * level else 0.0) >= a * level - SignificantLevel * a
  {
    if level <= SignificantLevel {
      MulNonNegative(a, SignificantLevel - level);
    }
  }

  lemma NearStep(r: real, t: real, p: real, r0: real, t0: real, p0: real, c: real, g: real, a: real)
    requires r == r0 + c && t == t0 + g && p == p0 + a
    requires r0 >= t0 - SignificantLevel * p0 && c >= g - SignificantLevel * a
    ensures r >= t - SignificantLevel * p
  {
  }

  /** The bound carries over from all but the last option to all of them. */
  lemma {:induction false} NearSolutionStep(options: seq<DeploymentOption>, x: Levels, value: OptionKey -> Option<real>)
    requires |options| > 0
    requires var o := options[|options| - 1];
      o.abatementKt >= 0.0 && 0.0 <= x(KeyOf(o)) && value(KeyOf(o)) == Some(x(KeyOf(o)))
    requires var init := options[..|options| - 1];
      ReportedAbatementOf(init, value) >= TotalAbatement(init, x) - SignificantLevel * PotentialTotal(init)
    ensures ReportedAbatementOf(options, value) >= TotalAbatement(options, x) - SignificantLevel * PotentialTotal(options)
  {
    var init, o := options[..|options| - 1], options[|options| - 1];
    var l := x(KeyOf(o));
    var g := o.abatementKt * l;
    var c := if l > SignificantLevel then g else 0.0;
    ReportedContribution(o.abatementKt, l);
    NearStep(ReportedAbatementOf(options, value), TotalAbatement(options, x), PotentialTotal(options),
             ReportedAbatementOf(init, value), TotalAbatement(init, x), PotentialTotal(init), c, g, o.abatementKt);
  }

  /** Dropping the levels at or below 1 % loses at most 1 % of the total potential abatement. */
  lemma {:induction false} ReportedAbatementNearSolution(options: seq<DeploymentOption>, x: Levels, value: OptionKey -> Option<real>)
    requires InBounds(options, x)
    requires forall o :: o in options ==> o.abatementKt >= 0.0 && value(KeyOf(o)) == Some(x(KeyOf(o)))
    ensures ReportedAbatementOf(options, value) >= TotalAbatement(options, x) - SignificantLevel * PotentialTotal(options)
    decreases |options|
  {
    if |options| > 0 {
      var init, o := options[..|options| - 1], options[|options| - 1];
      assert forall p :: p in init ==> p in options;
      assert o in options;
      ReportedAbatementNearSolution(init, x, value);
      NearSolutionStep(options, x, value);
    }
  }

  /** Levels feasible for the LP report at least the requirement less 1 % of the total potential. */
  lemma {:induction false} FeasibleReportsTarget(options: seq<DeploymentOption>, x: Levels, value: OptionKey -> Option<real>,
                                                 required: real, year: int)
    requires Feasible(options, x, required, year)
    requires forall o :: o in options ==> Viable(o) && value(KeyOf(o)) == Some(x(KeyOf(o)))
    ensures ReportedAbatement(Extracted(options, value)) >= required - SignificantLevel * PotentialTotal(options)
  {
    ReportedAbatementNearSolution(options, x, value);
    ReportedAbatementOfRows(options, value);
  }
}
