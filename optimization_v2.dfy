/**
 * The simplified yearly MACC optimisation (version 2): one LP per target year
 * over deployment fractions, the solution read back into deployments and
 * totals, the 2023-2050 emission pathway interpolated between the optimised
 * years, and the technology shares of each year.
 */
module OptimizationV2 {
  import opened Wrappers
  import opened Reals
  import opened Ints
  import Strings

  // ---------------------------------------------------------------------
  // Targets
  // ---------------------------------------------------------------------

  /** The required reductions (Mt CO2) of the three target years: 15, 50 and 80 % of the baseline. */
  function ReductionTargets(baselineMt: real): (m: map<int, real>)
    ensures m.Keys == {2030, 2040, 2050}
  {
    map[2030 := baselineMt * 0.15, 2040 := baselineMt * 0.50, 2050 := baselineMt * 0.80]
  }

  /** For a positive baseline the requirement grows from year to year and stays below the baseline. */
  lemma {:induction false} TargetsTighten(baselineMt: real)
    requires baselineMt > 0.0
    ensures var m := ReductionTargets(baselineMt);
      0.0 < m[2030] < m[2040] < m[2050] < baselineMt
    ensures var m := ReductionTargets(baselineMt);
      forall y :: y in m ==> m[y] / baselineMt in {0.15, 0.50, 0.80}
  {
    var m := ReductionTargets(baselineMt);
    assert m[2030] / baselineMt == 0.15;
    assert m[2040] / baselineMt == 0.50;
    assert m[2050] / baselineMt == 0.80;
  }

  // ---------------------------------------------------------------------
  // The yearly LP
  // ---------------------------------------------------------------------

  /** One row of a year's MACC table: a technology deployable at one facility group. */
  datatype MaccOption = MaccOption(
    deploymentId: string,
    technology: string,
    region: string,
    company: string,
    techGroup: string,
    maxDeploymentKt: real,
    totalAbatementKt: real,
    abatementTPerT: real,
    lcoaUsdPerT: real,
    capexMillionUsd: real)

  /** The solver's fractions, by position in the year's table. */
  type Fractions = int -> real

  /** The abatement (Mt) of an option deployed at fraction `f`. */
  function AbatementMt(o: MaccOption, f: real): real
  {
    f * o.totalAbatementKt / 1000.0
  }

  /** The objective term (million USD): the deployed capacity's abatement priced at the LCOA. */
  function CostMillionUsd(o: MaccOption, f: real): real
  {
    f * o.maxDeploymentKt * o.lcoaUsdPerT * o.abatementTPerT / 1000.0
  }

  /** The LP objective. */
  function TotalCost(options: seq<MaccOption>, x: Fractions): real
    decreases |options|
  {
    if |options| == 0 then 0.0
    else TotalCost(options[..|options| - 1], x) + CostMillionUsd(options[|options| - 1], x(|options| - 1))
  }

  /** The abatement the fractions achieve. */
  function TotalAbatement(options: seq<MaccOption>, x: Fractions): real
    decreases |options|
  {
    if |options| == 0 then 0.0
    else TotalAbatement(options[..|options| - 1], x) + AbatementMt(options[|options| - 1], x(|options| - 1))
  }

  /** The LCOA-weighted abatement: what the objective means when the table's totals are capacity times abatement per t. */
  function LcoaWeightedAbatement(options: seq<MaccOption>, x: Fractions): real
    decreases |options|
  {
    if |options| == 0 then 0.0
    else
      var o := options[|options| - 1];
      LcoaWeightedAbatement(options[..|options| - 1], x) + o.lcoaUsdPerT * AbatementMt(o, x(|options| - 1))
  }

  lemma {:induction false} CostTermIsPricedAbatement(o: MaccOption, f: real)
    requires o.totalAbatementKt == o.maxDeploymentKt * o.abatementTPerT
    ensures CostMillionUsd(o, f) == o.lcoaUsdPerT * AbatementMt(o, f)
  {
    assert f * o.maxDeploymentKt * o.lcoaUsdPerT * o.abatementTPerT == o.lcoaUsdPerT * (f * (o.maxDeploymentKt * o.abatementTPerT));
  }

  /** With each option's total abatement equal to capacity times abatement per t, the objective prices every Mt abated at its LCOA. */
  lemma {:induction false} ObjectiveIsPricedAbatement(options: seq<MaccOption>, x: Fractions)
    requires forall o :: o in options ==> o.totalAbatementKt == o.maxDeploymentKt * o.abatementTPerT
    ensures TotalCost(options, x) == LcoaWeightedAbatement(options, x)
    decreases |options|
  {
    if |options| > 0 {
      var init := options[..|options| - 1];
      assert forall o :: o in init ==> o in options;
      assert options[|options| - 1] in options;
      ObjectiveIsPricedAbatement(init, x);
      CostTermIsPricedAbatement(options[|options| - 1], x(|options| - 1));
    }
  }

  /** Every fraction lies in [0, 1]. */
  predicate InBounds(options: seq<MaccOption>, x: Fractions)
  {
    forall i :: 0 <= i < |options| ==> 0.0 <= x(i) <= 1.0
  }

  /** The year's constraints: bounds and the reduction target. */
  predicate Feasible(options: seq<MaccOption>, x: Fractions, targetMt: real)
  {
    InBounds(options, x) && TotalAbatement(options, x) >= targetMt
  }

  // ---------------------------------------------------------------------
  // Reading a year's solution back
  // ---------------------------------------------------------------------

  /** One reported deployment. */
  datatype Deployment = Deployment(
    deploymentId: string,
    technology: string,
    region: string,
    company: string,
    techGroup: string,
    fraction: real,
    deployedCapacityKt: real,
    abatementMt: real,
    investmentMillionUsd: Option<real>,
    lcoaUsdPerT: real)

  /** A year's outcome; a status other than optimal reports nothing achieved. */
  datatype YearResult = YearResult(
    optimal: bool,
    targetMt: real,
    achievedMt: real,
    investmentMillionUsd: Option<real>,
    deployments: seq<Deployment>)

  /** Fractions at or below this are not reported. */
  const SignificantFraction := 0.01

  /** A solver value that is reported: present and above 1 %. */
  predicate Significant(v: Option<real>)
  {
    v.Some? && v.value > SignificantFraction
  }

  /** The investment of a deployment: its capacity's share of the option's CAPEX; no number when the option has no capacity. */
  function Investment(o: MaccOption, f: real): Option<real>
  {
    if o.maxDeploymentKt == 0.0 then None else Some(f * o.maxDeploymentKt * o.capexMillionUsd / o.maxDeploymentKt)
  }

  /** A positive capacity makes the investment the deployed fraction of the CAPEX. */
  lemma {:induction false} InvestmentIsCapexShare(o: MaccOption, f: real)
    requires o.maxDeploymentKt > 0.0
    ensures Investment(o, f) == Some(f * o.capexMillionUsd)
  {
    assert Investment(o, f).Some?;
    assert Investment(o, f).value == f * o.maxDeploymentKt * o.capexMillionUsd / o.maxDeploymentKt;
    assert f * o.maxDeploymentKt * o.capexMillionUsd / o.maxDeploymentKt == f * o.capexMillionUsd;
  }

  function DeploymentOf(o: MaccOption, f: real): Deployment
  {
    Deployment(o.deploymentId, o.technology, o.region, o.company, o.techGroup, f,
               f * o.maxDeploymentKt, AbatementMt(o, f), Investment(o, f), o.lcoaUsdPerT)
  }

  /** The reported deployments, in table order. */
  function DeploymentsOf(options: seq<MaccOption>, value: int -> Option<real>): seq<Deployment>
    decreases |options|
  {
    if |options| == 0 then []
    else
      var n := |options| - 1;
      DeploymentsOf(options[..n], value) + (if Significant(value(n)) then [DeploymentOf(options[n], value(n).value)] else [])
  }

  /** The summed abatement of the reported deployments. */
  function AchievedOf(options: seq<MaccOption>, value: int -> Option<real>): real
    decreases |options|
  {
    if |options| == 0 then 0.0
    else
      var n := |options| - 1;
      AchievedOf(options[..n], value) + (if Significant(value(n)) then AbatementMt(options[n], value(n).value) else 0.0)
  }

  /** The summed investment; a deployment without a number makes the total none. */
  function InvestmentOf(options: seq<MaccOption>, value: int -> Option<real>): Option<real>
    decreases |options|
  {
    if |options| == 0 then Some(0.0)
    else
      var n := |options| - 1;
      var prev := InvestmentOf(options[..n], value);
      if !Significant(value(n)) then prev
      else
        match (prev, Investment(options[n], value(n).value))
        case (Some(a), Some(b)) => Some(a + b)
        case _ => None
  }

  function YearResultOf(options: seq<MaccOption>, value: int -> Option<real>, optimal: bool, targetMt: real): YearResult
  {
    if optimal then YearResult(true, targetMt, AchievedOf(options, value), InvestmentOf(options, value), DeploymentsOf(options, value))
    else YearResult(false, targetMt, 0.0, Some(0.0), [])
  }

  /** The read-back loop of one year's solve: the solver's values are given. */
  method ExtractYearResult(options: seq<MaccOption>, value: int -> Option<real>, optimal: bool, targetMt: real)
    returns (r: YearResult)
    ensures r == YearResultOf(options, value, optimal, targetMt)
  {
    if !optimal {
      return YearResult(false, targetMt, 0.0, Some(0.0), []);
    }
    var achieved := 0.0;
    var investment := Some(0.0);
    var deployments: seq<Deployment> := [];
    var i := 0;
    while i < |options|
      invariant 0 <= i <= |options|
      invariant achieved == AchievedOf(options[..i], value)
      invariant investment == InvestmentOf(options[..i], value)
      invariant deployments == DeploymentsOf(options[..i], value)
    {
      assert options[..i + 1][..i] == options[..i];
      var v := value(i);
      if v.Some? && v.value > SignificantFraction {
        var o := options[i];
        var d := DeploymentOf(o, v.value);
        achieved := achieved + d.abatementMt;
        investment := match (investment, d.investmentMillionUsd)
          case (Some(a), Some(b)) => Some(a + b)
          case _ => None;
        deployments := deployments + [d];
      }
      i := i + 1;
    }
    assert options[..i] == options;
    return YearResult(true, targetMt, achieved, investment, deployments);
  }

  /** A deployment is reported exactly for a position whose value is above 1 %, scaled by that value. */
  lemma {:induction false} DeploymentsReported(options: seq<MaccOption>, value: int -> Option<real>)
    ensures forall d :: d in DeploymentsOf(options, value) ==>
      exists i :: 0 <= i < |options| && Significant(value(i)) && d == DeploymentOf(options[i], value(i).value)
    ensures forall i :: 0 <= i < |options| && Significant(value(i)) ==>
      DeploymentOf(options[i], value(i).value) in DeploymentsOf(options, value)
    decreases |options|
  {
    if |options| > 0 {
      var n := |options| - 1;
      var init := options[..n];
      DeploymentsReported(init, value);
      var tail := if Significant(value(n)) then [DeploymentOf(options[n], value(n).value)] else [];
      assert DeploymentsOf(options, value) == DeploymentsOf(init, value) + tail;
      forall d | d in DeploymentsOf(options, value)
        ensures exists i :: 0 <= i < |options| && Significant(value(i)) && d == DeploymentOf(options[i], value(i).value)
      {
        if d in DeploymentsOf(init, value) {
          var i :| 0 <= i < n && Significant(value(i)) && d == DeploymentOf(init[i], value(i).value);
          assert init[i] == options[i];
        } else {
          assert d in tail;
        }
      }
      forall i | 0 <= i < |options| && Significant(value(i))
        ensures DeploymentOf(options[i], value(i).value) in DeploymentsOf(options, value)
      {
        if i < n {
          assert init[i] == options[i];
        } else {
          assert DeploymentOf(options[i], value(i).value) in tail;
        }
      }
    }
  }

  /** The options' total potential (Mt). */
  function PotentialMt(options: seq<MaccOption>): real
    decreases |options|
  {
    if |options| == 0 then 0.0 else PotentialMt(options[..|options| - 1]) + options[|options| - 1].totalAbatementKt / 1000.0
  }

  /** Leaving out a fraction at or below 1 % loses at most 1 % of that option's potential. */
  lemma {:induction false} DroppedAtMostOnePercent(o: MaccOption, f: real)
    requires o.totalAbatementKt >= 0.0 && f >= 0.0
    ensures (if f > SignificantFraction then AbatementMt(o, f) else 0.0) >= AbatementMt(o, f) - SignificantFraction * (o.totalAbatementKt / 1000.0)
  {
    if f <= SignificantFraction {
      MulNonNegative(o.totalAbatementKt / 1000.0, SignificantFraction - f);
      assert AbatementMt(o, f) == f * (o.totalAbatementKt / 1000.0);
    }
  }

  lemma AchievedStep(r: real, t: real, p: real, r0: real, t0: real, p0: real, c: real, g: real, a: real)
    requires r == r0 + c && t == t0 + g && p == p0 + a
    requires r0 >= t0 - SignificantFraction * p0 && c >= g - SignificantFraction * a
    ensures r >= t - SignificantFraction * p
  {
  }

  /** Reporting only fractions above 1 % loses at most 1 % of the total potential. */
  lemma {:induction false} AchievedNearSolution(options: seq<MaccOption>, x: Fractions, value: int -> Option<real>)
    requires InBounds(options, x)
    requires forall i :: 0 <= i < |options| ==> options[i].totalAbatementKt >= 0.0 && value(i) == Some(x(i))
    ensures AchievedOf(options, value) >= TotalAbatement(options, x) - SignificantFraction * PotentialMt(options)
    decreases |options|
  {
    if |options| > 0 {
      var n := |options| - 1;
      var init, o := options[..n], options[n];
      assert forall i :: 0 <= i < n ==> init[i] == options[i];
      AchievedNearSolution(init, x, value);
      DroppedAtMostOnePercent(o, x(n));
      AchievedStep(AchievedOf(options, value), TotalAbatement(options, x), PotentialMt(options),
                   AchievedOf(init, value), TotalAbatement(init, x), PotentialMt(init),
                   if x(n) > SignificantFraction then AbatementMt(o, x(n)) else 0.0, AbatementMt(o, x(n)), o.totalAbatementKt / 1000.0);
    }
  }

  /** An optimal solve of a feasible LP reports at least the target less 1 % of the total potential. */
  lemma {:induction false} OptimalMeetsTarget(options: seq<MaccOption>, x: Fractions, value: int -> Option<real>, targetMt: real)
    requires Feasible(options, x, targetMt)
    requires forall i :: 0 <= i < |options| ==> options[i].totalAbatementKt >= 0.0 && value(i) == Some(x(i))
    ensures YearResultOf(options, value, true, targetMt).achievedMt >= targetMt - SignificantFraction * PotentialMt(options)
  {
    AchievedNearSolution(options, x, value);
  }

  // ---------------------------------------------------------------------
  // The 2023-2050 pathway
  // ---------------------------------------------------------------------

  /** One year of the optimised pathway. */
  datatype PathwayRow = PathwayRow(year: int, baselineMt: real, emissionsMt: real, reductionMt: real, investmentBillionUsd: Option<real>)

  function InBillions(v: Option<real>): Option<real>
  {
    match v
    case Some(x) => Some(x / 1000.0)
    case None => None
  }

  /** `a + alpha * (b - a)`. */
  function Blend(a: real, b: real, alpha: real): real
  {
    a + alpha * (b - a)
  }

  function BlendOption(a: Option<real>, b: Option<real>, alpha: real): Option<real>
  {
    if a.Some? && b.Some? then Some(Blend(a.value, b.value, alpha)) else None
  }

  /** Where `year` lies between two optimised years, as a fraction. */
  function Alpha(lower: int, upper: int, year: int): real
    requires lower < upper
  {
    (year - lower) as real / (upper - lower) as real
  }

  lemma {:induction false} AlphaWithin(lower: int, upper: int, year: int)
    requires lower < year < upper
    ensures 0.0 < Alpha(lower, upper, year) < 1.0
  {
    var a, d := (year - lower) as real, (upper - lower) as real;
    QuotientBelow(a, d, 1.0);
  }

  lemma {:induction false} QuotientBelow(c: real, a: real, m: real)
    requires a > 0.0
    ensures c / a < m <==> c < m * a
    ensures c / a > 0.0 <==> c > 0.0
  {
    assert c == (c / a) * a;
    if c / a < m {
      assert (c / a) * a < m * a;
    }
    if c < m * a {
      assert (c / a) * a < m * a;
    }
  }

  lemma {:induction false} BlendBetween(a: real, b: real, alpha: real)
    requires 0.0 <= alpha <= 1.0
    ensures Min(a, b) <= Blend(a, b, alpha) <= Max(a, b)
  {
    LerpBetween(a, b, alpha);
    assert Blend(a, b, alpha) == a * (1.0 - alpha) + b * alpha;
  }

  ghost predicate HasKeyAtMost(keys: set<int>, year: int)
  {
    exists k :: k in keys && k <= year
  }

  ghost predicate HasKeyAtLeast(keys: set<int>, year: int)
  {
    exists k :: k in keys && k >= year
  }

  /** The row of a year between the optimised years `lower` and `upper`: both results blended. */
  function BlendedRow(results: map<int, YearResult>, baselineMt: real, year: int, lower: int, upper: int): PathwayRow
    requires lower in results && upper in results && lower < upper
  {
    var alpha := Alpha(lower, upper, year);
    var abatement := Blend(results[lower].achievedMt, results[upper].achievedMt, alpha);
    PathwayRow(year, baselineMt, baselineMt - abatement, abatement,
               BlendOption(InBillions(results[lower].investmentMillionUsd), InBillions(results[upper].investmentMillionUsd), alpha))
  }

  /** The row of an optimised year. */
  function OptimisedRow(res: YearResult, baselineMt: real, year: int): PathwayRow
  {
    PathwayRow(year, baselineMt, baselineMt - res.achievedMt, res.achievedMt, InBillions(res.investmentMillionUsd))
  }

  /**
   * The pathway row of `year` when the years up to `lastBaselineYear` report
   * the baseline: an optimised year reports its achieved abatement, a year in
   * between blends its two neighbours, and a year with no optimised year on
   * one side raises ValueError (`max`/`min` of an empty list).
   */
  ghost function PathwayRowWith(results: map<int, YearResult>, baselineMt: real, year: int, lastBaselineYear: int): (r: Result<PathwayRow>)
    ensures r.Err? ==> r.error == ValueError
    ensures r.Ok? ==> r.value.year == year && r.value.baselineMt == baselineMt
    ensures r.Ok? ==> r.value.emissionsMt + r.value.reductionMt == baselineMt
  {
    if year <= lastBaselineYear then Ok(PathwayRow(year, baselineMt, baselineMt, 0.0, Some(0.0)))
    else if year in results then Ok(OptimisedRow(results[year], baselineMt, year))
    else if !HasKeyAtMost(results.Keys, year) || !HasKeyAtLeast(results.Keys, year) then Err(ValueError)
    else Ok(BlendedRow(results, baselineMt, year, MaxKeyAtMost(results.Keys, year), MinKeyAtLeast(results.Keys, year)))
  }

  /** The row as written: the first optimised year itself still reports the baseline. */
  ghost function PathwayRowAsWritten(results: map<int, YearResult>, baselineMt: real, year: int): Result<PathwayRow>
  {
    if results.Keys == {} then Err(IndexError) else PathwayRowWith(results, baselineMt, year, SetMin(results.Keys))
  }

  /** The row as meant: only the years before the first optimised year report the baseline. */
  ghost function PathwayRowAt(results: map<int, YearResult>, baselineMt: real, year: int): Result<PathwayRow>
  {
    if results.Keys == {} then Err(IndexError) else PathwayRowWith(results, baselineMt, year, SetMin(results.Keys) - 1)
  }

  /** The first optimised year's own result is dropped by the rule as written. */
  lemma {:induction false} FirstYearDroppedAsWritten()
    ensures var results := map[2030 := YearResult(true, 1.0, 1.0, Some(0.0), []), 2040 := YearResult(true, 3.0, 3.0, Some(0.0), [])];
      PathwayRowAsWritten(results, 10.0, 2030) == Ok(PathwayRow(2030, 10.0, 10.0, 0.0, Some(0.0))) &&
      PathwayRowAt(results, 10.0, 2030) == Ok(PathwayRow(2030, 10.0, 9.0, 1.0, Some(0.0)))
  {
    var results := map[2030 := YearResult(true, 1.0, 1.0, Some(0.0), []), 2040 := YearResult(true, 3.0, 3.0, Some(0.0), [])];
    assert 2030 in results.Keys;
    assert SetMin(results.Keys) == 2030;
  }

  /** The two rules differ only at the first optimised year. */
  lemma {:induction false} AsWrittenDiffersOnlyAtFirst(results: map<int, YearResult>, baselineMt: real, year: int)
    requires results.Keys != {} ==> year != SetMin(results.Keys)
    ensures PathwayRowAsWritten(results, baselineMt, year) == PathwayRowAt(results, baselineMt, year)
  {
  }

  /** Before the first optimised year the pathway is the baseline with nothing abated or invested. */
  lemma {:induction false} PathwayBeforeFirst(results: map<int, YearResult>, baselineMt: real, year: int)
    requires results.Keys != {} && year < SetMin(results.Keys)
    ensures PathwayRowAt(results, baselineMt, year) == Ok(PathwayRow(year, baselineMt, baselineMt, 0.0, Some(0.0)))
  {
  }

  /** An optimised year reports exactly what its optimisation achieved, and its investment in billions. */
  lemma {:induction false} PathwayAtOptimisedYear(results: map<int, YearResult>, baselineMt: real, year: int)
    requires year in results
    ensures PathwayRowAt(results, baselineMt, year).Ok?
    ensures var row := PathwayRowAt(results, baselineMt, year).value;
      row.reductionMt == results[year].achievedMt &&
      row.emissionsMt == baselineMt - results[year].achievedMt &&
      row.investmentBillionUsd == InBillions(results[year].investmentMillionUsd)
  {
    assert results.Keys != {};
    assert SetMin(results.Keys) <= year;
  }

  /** A year between two optimised years abates between what its neighbours achieved. */
  lemma {:induction false} PathwayBetween(results: map<int, YearResult>, baselineMt: real, year: int)
    requires results.Keys != {} && SetMin(results.Keys) < year < SetMax(results.Keys) && year !in results
    ensures HasKeyAtMost(results.Keys, year) && HasKeyAtLeast(results.Keys, year)
    ensures var lower, upper := MaxKeyAtMost(results.Keys, year), MinKeyAtLeast(results.Keys, year);
      lower < year < upper &&
      PathwayRowAt(results, baselineMt, year).Ok? &&
      Min(results[lower].achievedMt, results[upper].achievedMt) <= PathwayRowAt(results, baselineMt, year).value.reductionMt
        <= Max(results[lower].achievedMt, results[upper].achievedMt)
  {
    var first, last := SetMin(results.Keys), SetMax(results.Keys);
    assert first in results.Keys && first <= year;
    assert last in results.Keys && last >= year;
    var lower, upper := MaxKeyAtMost(results.Keys, year), MinKeyAtLeast(results.Keys, year);
    AlphaWithin(lower, upper, year);
    assert PathwayRowAt(results, baselineMt, year) == Ok(BlendedRow(results, baselineMt, year, lower, upper));
    BlendBetween(results[lower].achievedMt, results[upper].achievedMt, Alpha(lower, upper, year));
  }

  /** A year past the last optimised year has no upper neighbour: ValueError; every year up to it has a row. */
  lemma {:induction false} PathwayDefinedUpToLast(results: map<int, YearResult>, baselineMt: real, year: int)
    requires results.Keys != {}
    ensures PathwayRowAt(results, baselineMt, year).Ok? <==> year <= SetMax(results.Keys)
    ensures year > SetMax(results.Keys) ==> PathwayRowAt(results, baselineMt, year) == Err(ValueError)
  {
    var first, last := SetMin(results.Keys), SetMax(results.Keys);
    if year <= last && year > first - 1 && year !in results {
      assert first in results.Keys && first <= year;
      assert last in results.Keys && last >= year;
    }
  }

  /**
   * The rows of `years` in order under the corrected rule (the first optimised
   * year reports its own result); the first failing year's error otherwise.
   */
  ghost function Pathway(results: map<int, YearResult>, baselineMt: real, years: seq<int>): (r: Result<seq<PathwayRow>>)
    ensures r.Ok? ==> |r.value| == |years|
    decreases |years|
  {
    if |years| == 0 then Ok([])
    else
      var prev := Pathway(results, baselineMt, years[..|years| - 1]);
      if prev.Err? then prev
      else
        var row := PathwayRowAt(results, baselineMt, years[|years| - 1]);
        if row.Err? then Err(row.error) else Ok(prev.value + [row.value])
  }

  /** Every row of a pathway is the row of its own year. */
  lemma {:induction false} PathwayRows(results: map<int, YearResult>, baselineMt: real, years: seq<int>)
    requires Pathway(results, baselineMt, years).Ok?
    ensures forall i :: 0 <= i < |years| ==> Ok(Pathway(results, baselineMt, years).value[i]) == PathwayRowAt(results, baselineMt, years[i])
    decreases |years|
  {
    if |years| > 0 {
      var n := |years| - 1;
      PathwayRows(results, baselineMt, years[..n]);
      var rows := Pathway(results, baselineMt, years).value;
      var prev := Pathway(results, baselineMt, years[..n]).value;
      assert rows == prev + [rows[n]];
      forall i | 0 <= i < |years|
        ensures Ok(rows[i]) == PathwayRowAt(results, baselineMt, years[i])
      {
        if i < n {
          assert years[..n][i] == years[i];
          assert rows[i] == prev[i];
        }
      }
    }
  }

  /** A failing year ends the pathway with its error. */
  lemma {:induction false} PathwayFailed(results: map<int, YearResult>, baselineMt: real, years: seq<int>, k: nat)
    requires k <= |years| && Pathway(results, baselineMt, years[..k]).Err?
    ensures Pathway(results, baselineMt, years) == Pathway(results, baselineMt, years[..k])
    decreases |years| - k
  {
    if k < |years| {
      assert years[..k + 1][..k] == years[..k];
      PathwayFailed(results, baselineMt, years, k + 1);
    } else {
      assert years[..k] == years;
    }
  }

  /** The rows of `years` under the rule as written: the first optimised year reports the baseline. */
  ghost function PathwayAsWritten(results: map<int, YearResult>, baselineMt: real, years: seq<int>): (r: Result<seq<PathwayRow>>)
    ensures r.Ok? ==> |r.value| == |years|
    decreases |years|
  {
    if |years| == 0 then Ok([])
    else
      var prev := PathwayAsWritten(results, baselineMt, years[..|years| - 1]);
      if prev.Err? then prev
      else
        var row := PathwayRowAsWritten(results, baselineMt, years[|years| - 1]);
        if row.Err? then Err(row.error) else Ok(prev.value + [row.value])
  }

  /** Over years that leave out the first optimised year the two pathways are the same. */
  lemma {:induction false} PathwayAsWrittenAgrees(results: map<int, YearResult>, baselineMt: real, years: seq<int>)
    requires results.Keys != {} ==> SetMin(results.Keys) !in years
    ensures PathwayAsWritten(results, baselineMt, years) == Pathway(results, baselineMt, years)
    decreases |years|
  {
    if |years| > 0 {
      var n := |years| - 1;
      assert forall y :: y in years[..n] ==> y in years;
      PathwayAsWrittenAgrees(results, baselineMt, years[..n]);
      AsWrittenDiffersOnlyAtFirst(results, baselineMt, years[n]);
    }
  }

  /** With optimised years 2030 and 2040, the pathway as written shows no reduction in 2030; the corrected one shows the 1 Mt achieved. */
  lemma PathwayAsWrittenDropsFirst()
    ensures var results := map[2030 := YearResult(true, 1.0, 1.0, Some(0.0), []), 2040 := YearResult(true, 3.0, 3.0, Some(0.0), [])];
      PathwayAsWritten(results, 10.0, [2030]) == Ok([PathwayRow(2030, 10.0, 10.0, 0.0, Some(0.0))]) &&
      Pathway(results, 10.0, [2030]) == Ok([PathwayRow(2030, 10.0, 9.0, 1.0, Some(0.0))])
  {
    var results := map[2030 := YearResult(true, 1.0, 1.0, Some(0.0), []), 2040 := YearResult(true, 3.0, 3.0, Some(0.0), [])];
    var years := [2030];
    assert years[..0] == [];
    FirstYearDroppedAsWritten();
    assert PathwayAsWritten(results, 10.0, years) == Ok([] + [PathwayRow(2030, 10.0, 10.0, 0.0, Some(0.0))]);
    assert Pathway(results, 10.0, years) == Ok([] + [PathwayRow(2030, 10.0, 9.0, 1.0, Some(0.0))]);
    assert [] + [PathwayRow(2030, 10.0, 10.0, 0.0, Some(0.0))] == [PathwayRow(2030, 10.0, 10.0, 0.0, Some(0.0))];
    assert [] + [PathwayRow(2030, 10.0, 9.0, 1.0, Some(0.0))] == [PathwayRow(2030, 10.0, 9.0, 1.0, Some(0.0))];
  }

  /** One pathway row, read off the sorted optimised years. */
  function PathwayRowFromListing(results: map<int, YearResult>, optYears: seq<int>, baselineMt: real, year: int): (r: Result<PathwayRow>)
    requires StrictlySorted(optYears) && |optYears| > 0
    requires forall y :: y in optYears <==> y in results
    ensures r == PathwayRowAt(results, baselineMt, year)
  {
    SortedListingExtrema(optYears, results.Keys);
    var first, last := optYears[0], optYears[|optYears| - 1];
    assert first in optYears && last in optYears;
    if year < first then Ok(PathwayRow(year, baselineMt, baselineMt, 0.0, Some(0.0)))
    else if year in results then Ok(OptimisedRow(results[year], baselineMt, year))
    else if year > last then
      assert !HasKeyAtLeast(results.Keys, year);
      Err(ValueError)
    else
      assert HasKeyAtMost(results.Keys, year) && HasKeyAtLeast(results.Keys, year);
      SortedListingBrackets(optYears, results.Keys, year);
      var lower := MaxInt(NotAbove(optYears, year));
      var upper := MinInt(NotBelow(optYears, year));
      assert lower in NotAbove(optYears, year) && upper in NotBelow(optYears, year);
      assert lower in optYears && lower <= year && lower != year;
      assert upper in optYears && upper >= year && upper != year;
      Ok(BlendedRow(results, baselineMt, year, lower, upper))
  }

  /**
   * `create_optimization_pathway` over the given years (2023-2050 in the
   * script), with the first optimised year corrected to report its own result;
   * `PathwayAsWritten` is the loop as written.
   */
  method CreateOptimizationPathway(results: map<int, YearResult>, baselineMt: real, years: seq<int>)
    returns (r: Result<seq<PathwayRow>>)
    ensures r == Pathway(results, baselineMt, years)
  {
    var optYears := SortedKeys(results.Keys);
    var rows: seq<PathwayRow> := [];
    var i := 0;
    while i < |years|
      invariant 0 <= i <= |years|
      invariant Pathway(results, baselineMt, years[..i]) == Ok(rows)
    {
      assert years[..i + 1][..i] == years[..i];
      if |optYears| == 0 {
        assert forall k :: k in results.Keys ==> k in optYears;
        assert results.Keys == {};
        PathwayFailed(results, baselineMt, years, i + 1);
        return Err(IndexError);
      }
      var row := PathwayRowFromListing(results, optYears, baselineMt, years[i]);
      if row.Err? {
        PathwayFailed(results, baselineMt, years, i + 1);
        return Err(row.error);
      }
      rows := rows + [row.value];
      i := i + 1;
    }
    assert years[..i] == years;
    return Ok(rows);
  }

  // ---------------------------------------------------------------------
  // Technology shares
  // ---------------------------------------------------------------------

  /** One technology's share of a year's deployed capacity. */
  datatype ShareRow = ShareRow(year: int, technology: string, capacityKt: real, share: real)

  function Technologies(ds: seq<Deployment>): (r: seq<string>)
    ensures |r| == |ds| && forall i :: 0 <= i < |ds| ==> r[i] == ds[i].technology
  {
    seq(|ds|, i requires 0 <= i < |ds| => ds[i].technology)
  }

  /** The deployed capacity of one technology. */
  function CapacityOf(ds: seq<Deployment>, technology: string): real
    decreases |ds|
  {
    if |ds| == 0 then 0.0
    else
      var d := ds[|ds| - 1];
      CapacityOf(ds[..|ds| - 1], technology) + Contribution(d, technology)
  }

  /** What one deployment adds to a technology's capacity. */
  function Contribution(d: Deployment, technology: string): real
  {
    if d.technology == technology then d.deployedCapacityKt else 0.0
  }

  function TotalCapacity(ds: seq<Deployment>): real
    decreases |ds|
  {
    if |ds| == 0 then 0.0 else TotalCapacity(ds[..|ds| - 1]) + ds[|ds| - 1].deployedCapacityKt
  }

  /** One row per listed technology: its capacity and that capacity over `total`. */
  function ShareRowsOver(ds: seq<Deployment>, technologies: seq<string>, year: int, total: real): (r: seq<ShareRow>)
    requires total != 0.0
    ensures |r| == |technologies|
    decreases |technologies|
  {
    if |technologies| == 0 then []
    else ShareRowsOver(ds, technologies[..|technologies| - 1], year, total) + [ShareRowFor(ds, technologies[|technologies| - 1], year, total)]
  }

  /** The row at position `i` is the `i`-th listed technology's capacity and share. */
  lemma {:induction false} ShareRowsOverAt(ds: seq<Deployment>, technologies: seq<string>, year: int, total: real, i: nat)
    requires total != 0.0 && i < |technologies|
    ensures ShareRowsOver(ds, technologies, year, total)[i] == ShareRowFor(ds, technologies[i], year, total)
    decreases |technologies|
  {
    var n := |technologies| - 1;
    if i < n {
      ShareRowsOverAt(ds, technologies[..n], year, total, i);
    }
  }

  /** A technology's capacity and its fraction of `total`. */
  function ShareRowFor(ds: seq<Deployment>, technology: string, year: int, total: real): ShareRow
    requires total != 0.0
  {
    ShareRow(year, technology, CapacityOf(ds, technology), CapacityOf(ds, technology) / total)
  }

  /** `groupby('Technology')` of a year's deployments: a share per technology in name order when anything is deployed. */
  function ShareRows(ds: seq<Deployment>, year: int): seq<ShareRow>
  {
    if TotalCapacity(ds) > 0.0 then ShareRowsOver(ds, Strings.SortedUnique(Technologies(ds)), year, TotalCapacity(ds)) else []
  }

  function SumShares(rows: seq<ShareRow>): real
    decreases |rows|
  {
    if |rows| == 0 then 0.0 else SumShares(rows[..|rows| - 1]) + rows[|rows| - 1].share
  }

  /** The summed capacity of the listed technologies. */
  function ListedCapacity(ds: seq<Deployment>, technologies: seq<string>): real
    decreases |technologies|
  {
    if |technologies| == 0 then 0.0
    else ListedCapacity(ds, technologies[..|technologies| - 1]) + CapacityOf(ds, technologies[|technologies| - 1])
  }

  /** `c` counted once for each listing of `t`. */
  function Hits(technologies: seq<string>, t: string, c: real): real
    decreases |technologies|
  {
    if |technologies| == 0 then 0.0
    else Hits(technologies[..|technologies| - 1], t, c) + (if technologies[|technologies| - 1] == t then c else 0.0)
  }

  predicate Distinct(technologies: seq<string>)
  {
    forall i, j :: 0 <= i < j < |technologies| ==> technologies[i] != technologies[j]
  }

  lemma {:induction false} HitsOnce(technologies: seq<string>, t: string, c: real)
    requires Distinct(technologies)
    ensures Hits(technologies, t, c) == if t in technologies then c else 0.0
    decreases |technologies|
  {
    if |technologies| > 0 {
      var n := |technologies| - 1;
      var init := technologies[..n];
      assert Distinct(init);
      HitsOnce(init, t, c);
      assert technologies == init + [technologies[n]];
      if technologies[n] == t {
        assert t !in init;
      }
    }
  }

  lemma {:induction false} ListedCapacityLast(ds: seq<Deployment>, technologies: seq<string>)
    requires |ds| > 0
    ensures ListedCapacity(ds, technologies) ==
      ListedCapacity(ds[..|ds| - 1], technologies) + Hits(technologies, ds[|ds| - 1].technology, ds[|ds| - 1].deployedCapacityKt)
    decreases |technologies|
  {
    if |technologies| > 0 {
      ListedCapacityLast(ds, technologies[..|technologies| - 1]);
    }
  }

  /** Listing every technology once accounts for the whole deployed capacity. */
  lemma {:induction false} ListedCapacityIsTotal(ds: seq<Deployment>, technologies: seq<string>)
    requires Distinct(technologies)
    requires forall d :: d in ds ==> d.technology in technologies
    ensures ListedCapacity(ds, technologies) == TotalCapacity(ds)
    decreases |ds|
  {
    if |ds| == 0 {
      ListedNothing(technologies);
    } else {
      var n := |ds| - 1;
      assert forall d :: d in ds[..n] ==> d in ds;
      assert ds[n] in ds;
      ListedCapacityIsTotal(ds[..n], technologies);
      ListedCapacityLast(ds, technologies);
      HitsOnce(technologies, ds[n].technology, ds[n].deployedCapacityKt);
    }
  }

  lemma {:induction false} ListedNothing(technologies: seq<string>)
    ensures ListedCapacity([], technologies) == 0.0
    decreases |technologies|
  {
    if |technologies| > 0 {
      ListedNothing(technologies[..|technologies| - 1]);
    }
  }

  lemma DivideSum(sum: real, initSum: real, whole: real, initWhole: real, c: real, total: real)
    requires total != 0.0
    requires sum == initSum + c / total && initSum == initWhole / total && whole == initWhole + c
    ensures sum == whole / total
  {
    assert initWhole / total + c / total == (initWhole + c) / total;
  }

  lemma {:induction false} SharesAddUp(ds: seq<Deployment>, technologies: seq<string>, year: int, total: real)
    requires total != 0.0
    ensures SumShares(ShareRowsOver(ds, technologies, year, total)) == ListedCapacity(ds, technologies) / total
    decreases |technologies|
  {
    if |technologies| > 0 {
      var n := |technologies| - 1;
      var rows := ShareRowsOver(ds, technologies, year, total);
      var init := ShareRowsOver(ds, technologies[..n], year, total);
      var listed, c := ListedCapacity(ds, technologies[..n]), CapacityOf(ds, technologies[n]);
      SharesAddUp(ds, technologies[..n], year, total);
      assert rows[..n] == init;
      assert SumShares(rows) == SumShares(init) + c / total;
      DivideSum(SumShares(rows), SumShares(init), ListedCapacity(ds, technologies), listed, c, total);
    }
  }

  /** A year's shares add up to 1 whenever anything is deployed. */
  lemma {:induction false} SharesSumToOne(ds: seq<Deployment>, year: int)
    requires TotalCapacity(ds) > 0.0
    ensures SumShares(ShareRows(ds, year)) == 1.0
  {
    var names := Strings.SortedUnique(Technologies(ds));
    Strings.SortedUniqueSorted(Technologies(ds));
    Strings.StrictlySortedDistinct(names);
    forall d | d in ds
      ensures d.technology in names
    {
      var k :| 0 <= k < |ds| && ds[k] == d;
      assert Technologies(ds)[k] == d.technology;
    }
    var total := TotalCapacity(ds);
    assert ShareRows(ds, year) == ShareRowsOver(ds, names, year, total);
    ListedCapacityIsTotal(ds, names);
    SharesAddUp(ds, names, year, total);
    SelfQuotient(ListedCapacity(ds, names), total);
  }

  lemma SelfQuotient(a: real, b: real)
    requires b != 0.0 && a == b
    ensures a / b == 1.0
  {
  }

  /** The deployments with their capacity multiplied by `factor`. */
  function Scaled(ds: seq<Deployment>, factor: real): (r: seq<Deployment>)
    ensures |r| == |ds|
    ensures forall i :: 0 <= i < |ds| ==> r[i] == ds[i].(deployedCapacityKt := Scale(factor, ds[i].deployedCapacityKt))
  {
    seq(|ds|, i requires 0 <= i < |ds| => ds[i].(deployedCapacityKt := Scale(factor, ds[i].deployedCapacityKt)))
  }

  /** `amount` multiplied by `factor`. */
  function Scale(factor: real, amount: real): real
  {
    factor * amount
  }

  lemma ScaledPrefix(ds: seq<Deployment>, factor: real, n: nat)
    requires n <= |ds|
    ensures Scaled(ds, factor)[..n] == Scaled(ds[..n], factor)
  {
    var a, b := Scaled(ds, factor)[..n], Scaled(ds[..n], factor);
    assert forall i :: 0 <= i < n ==> a[i] == b[i];
  }

  lemma ScaleAdds(scaled: real, whole: real, initScaled: real, initWhole: real, cScaled: real, c: real, f: real)
    requires scaled == initScaled + cScaled && whole == initWhole + c
    requires initScaled == Scale(f, initWhole) && cScaled == Scale(f, c)
    ensures scaled == Scale(f, whole)
  {
    assert f * initWhole + f * c == f * (initWhole + c);
  }

  lemma {:induction false} ScaledCapacity(ds: seq<Deployment>, factor: real, technology: string)
    ensures CapacityOf(Scaled(ds, factor), technology) == Scale(factor, CapacityOf(ds, technology))
    decreases |ds|
  {
    if |ds| > 0 {
      var n := |ds| - 1;
      ScaledCapacity(ds[..n], factor, technology);
      ScaledPrefix(ds, factor, n);
      assert Contribution(Scaled(ds, factor)[n], technology) == Scale(factor, Contribution(ds[n], technology));
      ScaleAdds(CapacityOf(Scaled(ds, factor), technology), CapacityOf(ds, technology),
        CapacityOf(Scaled(ds[..n], factor), technology), CapacityOf(ds[..n], technology),
        Contribution(Scaled(ds, factor)[n], technology), Contribution(ds[n], technology), factor);
    }
  }

  lemma {:induction false} ScaledTotal(ds: seq<Deployment>, factor: real)
    ensures TotalCapacity(Scaled(ds, factor)) == Scale(factor, TotalCapacity(ds))
    decreases |ds|
  {
    if |ds| > 0 {
      var n := |ds| - 1;
      ScaledTotal(ds[..n], factor);
      ScaledPrefix(ds, factor, n);
      ScaleAdds(TotalCapacity(Scaled(ds, factor)), TotalCapacity(ds), TotalCapacity(Scaled(ds[..n], factor)), TotalCapacity(ds[..n]),
        Scaled(ds, factor)[n].deployedCapacityKt, ds[n].deployedCapacityKt, factor);
    }
  }

  lemma {:induction false} ScaledTechnologies(ds: seq<Deployment>, factor: real)
    ensures Technologies(Scaled(ds, factor)) == Technologies(ds)
    decreases |ds|
  {
    if |ds| > 0 {
      var n := |ds| - 1;
      var sc := Scaled(ds, factor);
      ScaledTechnologies(ds[..n], factor);
      ScaledPrefix(ds, factor, n);
      assert sc[n].technology == ds[n].technology;
      assert Technologies(sc)[..n] == Technologies(sc[..n]);
      assert Technologies(ds)[..n] == Technologies(ds[..n]);
    }
  }

  lemma CancelFactor(afterShare: real, afterCapacity: real, afterTotal: real, beforeShare: real, beforeCapacity: real, total: real, factor: real)
    requires total != 0.0 && factor != 0.0 && afterTotal != 0.0
    requires afterShare == afterCapacity / afterTotal && afterCapacity == Scale(factor, beforeCapacity) && afterTotal == Scale(factor, total)
    requires beforeShare == beforeCapacity / total
    ensures afterShare == beforeShare
  {
    assert (factor * beforeCapacity) / (factor * total) * (factor * total) == factor * beforeCapacity;
  }

  /** Scaling by a positive factor keeps a positive total positive. */
  lemma ScaledTotalPositive(ds: seq<Deployment>, factor: real)
    requires factor > 0.0 && TotalCapacity(ds) > 0.0
    ensures TotalCapacity(Scaled(ds, factor)) > 0.0
  {
    ScaledTotal(ds, factor);
    MulPositive(factor, TotalCapacity(ds));
  }

  /**
   * Scaling every deployment by a positive factor scales each technology's
   * capacity and leaves every share as it was.
   */
  lemma {:induction false} ScalingKeepsShares(ds: seq<Deployment>, factor: real, year: int)
    requires factor > 0.0
    ensures ScaledMix(ShareRows(ds, year), ShareRows(Scaled(ds, factor), year), factor)
  {
    if TotalCapacity(ds) > 0.0 {
      ScaledShareRowsAre(ds, factor, year);
      ScaledMixOver(ds, factor, Strings.SortedUnique(Technologies(ds)), year);
    } else {
      assert ShareRows(Scaled(ds, factor), year) == [] by {
        ScaledTotal(ds, factor);
        NotPositiveScaled(factor, TotalCapacity(ds));
      }
    }
  }

  /** The same technologies in the same order with the same shares, each capacity multiplied by `factor`. */
  predicate ScaledMix(before: seq<ShareRow>, after: seq<ShareRow>, factor: real)
  {
    |after| == |before| &&
    forall i :: 0 <= i < |after| ==>
      after[i].technology == before[i].technology && after[i].share == before[i].share &&
      after[i].capacityKt == Scale(factor, before[i].capacityKt)
  }


  lemma ScaledShareRowsAre(ds: seq<Deployment>, factor: real, year: int)
    requires factor > 0.0 && TotalCapacity(ds) > 0.0
    ensures TotalCapacity(Scaled(ds, factor)) > 0.0
    ensures ShareRows(Scaled(ds, factor), year) ==
      ShareRowsOver(Scaled(ds, factor), Strings.SortedUnique(Technologies(ds)), year, TotalCapacity(Scaled(ds, factor)))
  {
    ScaledTotalPositive(ds, factor);
    ScaledTechnologies(ds, factor);
  }

  lemma ScaledMixOver(ds: seq<Deployment>, factor: real, names: seq<string>, year: int)
    requires factor > 0.0 && TotalCapacity(ds) > 0.0
    ensures TotalCapacity(Scaled(ds, factor)) > 0.0
    ensures ScaledMix(ShareRowsOver(ds, names, year, TotalCapacity(ds)),
      ShareRowsOver(Scaled(ds, factor), names, year, TotalCapacity(Scaled(ds, factor))), factor)
  {
    ScaledTotalPositive(ds, factor);
    forall i | 0 <= i < |names|
      ensures ShareRowsOver(Scaled(ds, factor), names, year, TotalCapacity(Scaled(ds, factor)))[i].technology == ShareRowsOver(ds, names, year, TotalCapacity(ds))[i].technology
      ensures ShareRowsOver(Scaled(ds, factor), names, year, TotalCapacity(Scaled(ds, factor)))[i].share == ShareRowsOver(ds, names, year, TotalCapacity(ds))[i].share
      ensures ShareRowsOver(Scaled(ds, factor), names, year, TotalCapacity(Scaled(ds, factor)))[i].capacityKt == Scale(factor, ShareRowsOver(ds, names, year, TotalCapacity(ds))[i].capacityKt)
    {
      ScaledRowAt(ds, factor, names, year, i);
    }
  }

  lemma ScaledRowAt(ds: seq<Deployment>, factor: real, names: seq<string>, year: int, i: nat)
    requires factor > 0.0 && TotalCapacity(ds) > 0.0 && i < |names|
    ensures TotalCapacity(Scaled(ds, factor)) > 0.0
    ensures ShareRowsOver(Scaled(ds, factor), names, year, TotalCapacity(Scaled(ds, factor)))[i].technology == ShareRowsOver(ds, names, year, TotalCapacity(ds))[i].technology
    ensures ShareRowsOver(Scaled(ds, factor), names, year, TotalCapacity(Scaled(ds, factor)))[i].share == ShareRowsOver(ds, names, year, TotalCapacity(ds))[i].share
    ensures ShareRowsOver(Scaled(ds, factor), names, year, TotalCapacity(Scaled(ds, factor)))[i].capacityKt == Scale(factor, ShareRowsOver(ds, names, year, TotalCapacity(ds))[i].capacityKt)
  {
    ScaledTotalPositive(ds, factor);
    ShareRowsOverAt(ds, names, year, TotalCapacity(ds), i);
    ShareRowsOverAt(Scaled(ds, factor), names, year, TotalCapacity(Scaled(ds, factor)), i);
    ScaledCapacity(ds, factor, names[i]);
    ScaledShare(ds, factor, names[i]);
  }

  /** One technology's share is unchanged by scaling every deployment. */
  lemma ScaledShare(ds: seq<Deployment>, factor: real, technology: string)
    requires factor > 0.0 && TotalCapacity(ds) > 0.0
    ensures TotalCapacity(Scaled(ds, factor)) > 0.0
    ensures CapacityOf(Scaled(ds, factor), technology) / TotalCapacity(Scaled(ds, factor)) == CapacityOf(ds, technology) / TotalCapacity(ds)
  {
    ScaledTotalPositive(ds, factor);
    assert CapacityOf(Scaled(ds, factor), technology) / TotalCapacity(Scaled(ds, factor)) == CapacityOf(ds, technology) / TotalCapacity(ds) by {
      ScaledTotal(ds, factor);
      ScaledCapacity(ds, factor, technology);
      CancelFactor(CapacityOf(Scaled(ds, factor), technology) / TotalCapacity(Scaled(ds, factor)),
        CapacityOf(Scaled(ds, factor), technology), TotalCapacity(Scaled(ds, factor)),
        CapacityOf(ds, technology) / TotalCapacity(ds), CapacityOf(ds, technology), TotalCapacity(ds), factor);
    }
  }

  lemma MulPositive(a: real, b: real)
    requires a > 0.0 && b > 0.0
    ensures a * b > 0.0
  {
  }

  lemma NotPositiveScaled(a: real, b: real)
    requires a > 0.0 && b <= 0.0
    ensures !(a * b > 0.0)
  {
  }

  /**
   * The shares of `year` when the years up to `lastBaselineYear` have none: an
   * optimised year's own deployments; a year in between takes the lower
   * neighbour's deployments, scaled by `1 + 0.5 * alpha` (an empty table has
   * no capacity column: KeyError); no neighbour on a side raises ValueError.
   */
  ghost function SharesForYearWith(results: map<int, YearResult>, year: int, lastBaselineYear: int): (r: Result<seq<ShareRow>>)
    ensures r.Err? ==> r.error in {ValueError, KeyError}
  {
    if year <= lastBaselineYear then Ok([])
    else if year in results then Ok(ShareRows(results[year].deployments, year))
    else if !HasKeyAtMost(results.Keys, year) || !HasKeyAtLeast(results.Keys, year) then Err(ValueError)
    else
      InterpolatedShares(results, year, MaxKeyAtMost(results.Keys, year), MinKeyAtLeast(results.Keys, year))
  }

  /**
   * The shares of a year between two optimised years: the lower year's
   * deployments with their capacity multiplied by `1 + 0.5 * alpha`; an empty
   * table has no capacity column to scale (KeyError).
   */
  function InterpolatedShares(results: map<int, YearResult>, year: int, lower: int, upper: int): Result<seq<ShareRow>>
    requires lower in results && upper in results && lower < upper
  {
    var ds := results[lower].deployments;
    if |ds| == 0 then Err(KeyError) else Ok(ShareRows(Scaled(ds, 1.0 + Alpha(lower, upper, year) * 0.5), year))
  }

  /** The shares as written: none for the first optimised year itself. */
  ghost function SharesForYearAsWritten(results: map<int, YearResult>, year: int): Result<seq<ShareRow>>
  {
    if results.Keys == {} then Err(IndexError) else SharesForYearWith(results, year, SetMin(results.Keys))
  }

  /** The shares as meant: the first optimised year reports its own mix. */
  ghost function SharesForYear(results: map<int, YearResult>, year: int): Result<seq<ShareRow>>
  {
    if results.Keys == {} then Err(IndexError) else SharesForYearWith(results, year, SetMin(results.Keys) - 1)
  }

  /** The first optimised year's mix is lost by the rule as written. */
  lemma {:induction false} FirstYearSharesDroppedAsWritten()
    ensures var d := Deployment("D1", "Electric cracker", "R", "C", "G", 1.0, 10.0, 1.0, Some(5.0), 50.0);
      var results := map[2030 := YearResult(true, 1.0, 1.0, Some(5.0), [d])];
      SharesForYearAsWritten(results, 2030) == Ok([]) &&
      SharesForYear(results, 2030) == Ok([ShareRow(2030, "Electric cracker", 10.0, 1.0)])
  {
    var d := Deployment("D1", "Electric cracker", "R", "C", "G", 1.0, 10.0, 1.0, Some(5.0), 50.0);
    var results := map[2030 := YearResult(true, 1.0, 1.0, Some(5.0), [d])];
    assert 2030 in results.Keys;
    assert SetMin(results.Keys) == 2030;
    assert [d][..0] == [];
    assert TotalCapacity([d]) == 10.0;
    assert CapacityOf([d], "Electric cracker") == 10.0;
    assert Technologies([d]) == ["Electric cracker"];
    var names := ["Electric cracker"];
    assert Strings.SortedUnique(names) == names by {
      assert names[..0] == [];
    }
    assert names[..0] == [];
    assert ShareRowsOver([d], names, 2030, 10.0) == [ShareRowFor([d], "Electric cracker", 2030, 10.0)];
    assert ShareRows([d], 2030) == [ShareRow(2030, "Electric cracker", 10.0, 1.0)];
  }

  /** Every year with rows splits its capacity completely: the shares add up to 1. */
  lemma {:induction false} YearSharesSumToOne(results: map<int, YearResult>, year: int)
    requires SharesForYear(results, year).Ok? && |SharesForYear(results, year).value| > 0
    ensures SumShares(SharesForYear(results, year).value) == 1.0
  {
    var r := SharesForYearWith(results, year, SetMin(results.Keys) - 1);
    assert SharesForYear(results, year) == r;
    if year in results && year > SetMin(results.Keys) - 1 {
      var ds := results[year].deployments;
      assert r.value == ShareRows(ds, year);
      SharesSumToOne(ds, year);
    } else if year > SetMin(results.Keys) - 1 {
      var lower, upper := MaxKeyAtMost(results.Keys, year), MinKeyAtLeast(results.Keys, year);
      var sc := Scaled(results[lower].deployments, 1.0 + Alpha(lower, upper, year) * 0.5);
      assert r.value == ShareRows(sc, year);
      SharesSumToOne(sc, year);
    }
  }

  /** A year between optimised years keeps the lower neighbour's mix: the same technologies and shares. */
  lemma {:induction false} InterpolatedYearKeepsMix(results: map<int, YearResult>, year: int)
    requires results.Keys != {} && SetMin(results.Keys) < year < SetMax(results.Keys) && year !in results
    ensures HasKeyAtMost(results.Keys, year)
    ensures var lower := MaxKeyAtMost(results.Keys, year);
      |results[lower].deployments| > 0 ==>
        SharesForYear(results, year).Ok? &&
        var after, before := SharesForYear(results, year).value, ShareRows(results[lower].deployments, year);
        |after| == |before| &&
        forall i :: 0 <= i < |after| ==> after[i].technology == before[i].technology && after[i].share == before[i].share
  {
    var first, last := SetMin(results.Keys), SetMax(results.Keys);
    assert first in results.Keys && first <= year;
    assert last in results.Keys && last >= year;
    var lower, upper := MaxKeyAtMost(results.Keys, year), MinKeyAtLeast(results.Keys, year);
    AlphaWithin(lower, upper, year);
    ScalingKeepsShares(results[lower].deployments, 1.0 + Alpha(lower, upper, year) * 0.5, year);
  }

  /**
   * The share rows of `years` in order under the corrected rule (the first
   * optimised year reports its own mix); the first failing year's error otherwise.
   */
  ghost function Shares(results: map<int, YearResult>, years: seq<int>): Result<seq<ShareRow>>
    decreases |years|
  {
    if |years| == 0 then Ok([])
    else
      var prev := Shares(results, years[..|years| - 1]);
      if prev.Err? then prev
      else
        var rows := SharesForYear(results, years[|years| - 1]);
        if rows.Err? then Err(rows.error) else Ok(prev.value + rows.value)
  }

  lemma {:induction false} SharesFailed(results: map<int, YearResult>, years: seq<int>, k: nat)
    requires k <= |years| && Shares(results, years[..k]).Err?
    ensures Shares(results, years) == Shares(results, years[..k])
    decreases |years| - k
  {
    if k < |years| {
      assert years[..k + 1][..k] == years[..k];
      SharesFailed(results, years, k + 1);
    } else {
      assert years[..k] == years;
    }
  }

  /** The share rows of `years` under the rule as written: none for the first optimised year. */
  ghost function SharesAsWritten(results: map<int, YearResult>, years: seq<int>): (r: Result<seq<ShareRow>>)
    ensures r.Err? ==> r.error in {IndexError, ValueError, KeyError}
    decreases |years|
  {
    if |years| == 0 then Ok([])
    else
      var prev := SharesAsWritten(results, years[..|years| - 1]);
      if prev.Err? then prev
      else
        var rows := SharesForYearAsWritten(results, years[|years| - 1]);
        if rows.Err? then Err(rows.error) else Ok(prev.value + rows.value)
  }

  /** Over years that leave out the first optimised year the two share tables are the same. */
  lemma {:induction false} SharesAsWrittenAgrees(results: map<int, YearResult>, years: seq<int>)
    requires results.Keys != {} ==> SetMin(results.Keys) !in years
    ensures SharesAsWritten(results, years) == Shares(results, years)
    decreases |years|
  {
    if |years| > 0 {
      var n := |years| - 1;
      assert forall y :: y in years[..n] ==> y in years;
      SharesAsWrittenAgrees(results, years[..n]);
    }
  }

  /** With 2030 the only optimised year, the shares as written over 2030 are empty; the corrected ones list the deployed technology. */
  lemma SharesAsWrittenDropsFirst()
    ensures var d := Deployment("D1", "Electric cracker", "R", "C", "G", 1.0, 10.0, 1.0, Some(5.0), 50.0);
      var results := map[2030 := YearResult(true, 1.0, 1.0, Some(5.0), [d])];
      SharesAsWritten(results, [2030]) == Ok([]) &&
      Shares(results, [2030]) == Ok([ShareRow(2030, "Electric cracker", 10.0, 1.0)])
  {
    var d := Deployment("D1", "Electric cracker", "R", "C", "G", 1.0, 10.0, 1.0, Some(5.0), 50.0);
    var results := map[2030 := YearResult(true, 1.0, 1.0, Some(5.0), [d])];
    var years := [2030];
    assert years[..0] == [];
    FirstYearSharesDroppedAsWritten();
    var row := ShareRow(2030, "Electric cracker", 10.0, 1.0);
    var none: seq<ShareRow> := [];
    assert SharesAsWritten(results, years) == Ok(none + none);
    assert none + none == none;
    assert Shares(results, years) == Ok([] + [row]);
    assert [] + [row] == [row];
  }

  /** One year's share rows, read off the sorted optimised years. */
  function SharesFromListing(results: map<int, YearResult>, optYears: seq<int>, year: int): (r: Result<seq<ShareRow>>)
    requires StrictlySorted(optYears) && |optYears| > 0
    requires forall y :: y in optYears <==> y in results
    ensures r == SharesForYear(results, year)
  {
    SortedListingExtrema(optYears, results.Keys);
    var first, last := optYears[0], optYears[|optYears| - 1];
    assert first in optYears && last in optYears;
    if year < first then Ok([])
    else if year in results then Ok(ShareRows(results[year].deployments, year))
    else if year > last then
      assert !HasKeyAtLeast(results.Keys, year);
      Err(ValueError)
    else
      assert HasKeyAtMost(results.Keys, year) && HasKeyAtLeast(results.Keys, year);
      SortedListingBrackets(optYears, results.Keys, year);
      var lower := MaxInt(NotAbove(optYears, year));
      var upper := MinInt(NotBelow(optYears, year));
      assert lower in NotAbove(optYears, year) && upper in NotBelow(optYears, year);
      assert lower in optYears && lower <= year && lower != year;
      assert upper in optYears && upper >= year && upper != year;
      InterpolatedShares(results, year, lower, upper)
  }

  /**
   * `create_technology_shares_from_optimization` over the given years, with
   * the first optimised year corrected to report its own mix;
   * `SharesAsWritten` is the loop as written.
   */
  method CreateTechnologyShares(results: map<int, YearResult>, years: seq<int>) returns (r: Result<seq<ShareRow>>)
    ensures r == Shares(results, years)
  {
    var optYears := SortedKeys(results.Keys);
    var rows: seq<ShareRow> := [];
    var i := 0;
    while i < |years|
      invariant 0 <= i <= |years|
      invariant Shares(results, years[..i]) == Ok(rows)
    {
      assert years[..i + 1][..i] == years[..i];
      if |optYears| == 0 {
        assert forall k :: k in results.Keys ==> k in optYears;
        assert results.Keys == {};
        SharesFailed(results, years, i + 1);
        return Err(IndexError);
      }
      var more := SharesFromListing(results, optYears, years[i]);
      if more.Err? {
        SharesFailed(results, years, i + 1);
        return Err(more.error);
      }
      rows := rows + more.value;
      i := i + 1;
    }
    assert years[..i] == years;
    return Ok(rows);
  }
}
