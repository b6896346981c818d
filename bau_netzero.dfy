/**
 * The BAU-baseline MACC optimisation towards a linear net-zero pathway: the
 * yearly targets fall linearly from the 2025 BAU emissions to 0 in 2050, the
 * LP asks every year's abatement to close the gap between the BAU pathway and
 * the target, deployment may rise by at most the ramp-up share per year, and
 * competing technologies of one product share at most full deployment. The
 * script's object keeps each step's output in a field the next step reads.
 */
module BauNetZero {

  import opened Wrappers
  import opened Reals
  import opened DeploymentLp
  import TransitionFill
  import Sorting

  const NetZeroYear: int := 2050
  /** The years over which the target falls to zero. */
  const PathwayYears: real := 25.0

  // ------------------------------------------------------------ targets

  /** `bau2025 * (1 - (year - 2025) / 25)`. */
  function LinearTarget(bau2025: real, year: int): real
  {
    bau2025 * (1.0 - (year - BaseYear) as real / PathwayYears)
  }

  /**
   * The target starts at the 2025 BAU emissions, reaches 0 in 2050, falls by
   * a twenty-fifth of the 2025 emissions every year, and in between stays
   * within [0, bau2025] when the 2025 emissions are not negative.
   */
  lemma {:induction false} LinearTargetPath(bau2025: real, year: int)
    ensures LinearTarget(bau2025, BaseYear) == bau2025
    ensures LinearTarget(bau2025, NetZeroYear) == 0.0
    ensures LinearTarget(bau2025, year) - LinearTarget(bau2025, year + 1) == bau2025 / PathwayYears
    ensures bau2025 >= 0.0 && BaseYear <= year <= NetZeroYear ==> 0.0 <= LinearTarget(bau2025, year) <= bau2025
  {
    var t := (year - BaseYear) as real / PathwayYears;
    assert LinearTarget(bau2025, year) == bau2025 - bau2025 * t;
    assert LinearTarget(bau2025, year + 1) == bau2025 - bau2025 * (t + 1.0 / PathwayYears);
    if bau2025 >= 0.0 && BaseYear <= year <= NetZeroYear {
      MulNonNegative(bau2025, t);
      MulNonNegative(bau2025, 1.0 - t);
    }
  }

  /** The targets of 2025 through 2050. */
  function TargetMap(bau2025: real): (m: map<int, real>)
    ensures forall y :: y in m <==> BaseYear <= y <= NetZeroYear
  {
    map y | BaseYear <= y <= NetZeroYear :: LinearTarget(bau2025, y)
  }

  /** `calculate_linear_netzero_targets`: IndexError without a 2025 BAU row. */
  function NetZeroTargets(bau: seq<BauPoint>): (r: Result<map<int, real>>)
    ensures r.Err? <==> BauAt(bau, BaseYear).Err?
    ensures r.Ok? ==> r.value == TargetMap(BauAt(bau, BaseYear).value)
  {
    var b := BauAt(bau, BaseYear);
    if b.Err? then Err(b.error) else Ok(TargetMap(b.value))
  }

  // ------------------------------------------------------------ the problem

  /** `range(2025, planning_horizon + 1)`. */
  function YearsTo(horizon: int): (ys: seq<int>)
    ensures forall y :: y in ys <==> BaseYear <= y <= horizon
    ensures Distinct(ys)
    ensures forall i :: 0 <= i < |ys| ==> ys[i] == BaseYear + i
  {
    var n := if horizon >= BaseYear then horizon - BaseYear + 1 else 0;
    var ys := seq(n, i requires 0 <= i < n => BaseYear + i);
    forall y | BaseYear <= y <= horizon
      ensures y in ys
    {
      assert ys[y - BaseYear] == y;
    }
    ys
  }

  /**
   * The requirement of each year, BAU minus target with no clamp at 0; the
   * first year without a BAU row raises IndexError, the first without a
   * target KeyError.
   */
  function Requirements(bau: seq<BauPoint>, targets: map<int, real>, years: seq<int>): Result<map<int, real>>
  {
    if |years| == 0 then Ok(map[])
    else
      var init := Requirements(bau, targets, years[..|years| - 1]);
      var y := years[|years| - 1];
      if init.Err? then init
      else if BauAt(bau, y).Err? then Err(IndexError)
      else if y !in targets then Err(KeyError)
      else Ok(init.value[y := BauAt(bau, y).value - targets[y]])
  }

  /** Every listed year has a BAU row and a target. */
  predicate Covered(bau: seq<BauPoint>, targets: map<int, real>, years: seq<int>)
  {
    forall y :: y in years ==> BauAt(bau, y).Ok? && y in targets
  }

  lemma {:induction false} RequirementsSpec(bau: seq<BauPoint>, targets: map<int, real>, years: seq<int>)
    ensures Requirements(bau, targets, years).Ok? <==> Covered(bau, targets, years)
    ensures Requirements(bau, targets, years).Err? ==> Requirements(bau, targets, years).error in {IndexError, KeyError}
    ensures Requirements(bau, targets, years).Ok? ==>
              var m := Requirements(bau, targets, years).value;
              (forall y :: y in m <==> y in years) &&
              forall y :: y in m ==> m[y] == BauAt(bau, y).value - targets[y]
  {
    if |years| > 0 {
      var init := years[..|years| - 1];
      RequirementsSpec(bau, targets, init);
      assert forall y :: y in years <==> y in init || y == years[|years| - 1];
    }
  }

  /** The LP as built: its years, its variables with their upper bounds, and each year's requirement. */
  datatype Problem = Problem(years: seq<int>, bounds: map<Key, real>, required: map<int, real>)

  /** `setup_optimization_problem(planning_horizon)`. */
  function SetupProblem(techs: seq<TechOption>, bau: seq<BauPoint>, horizon: int): Result<Problem>
  {
    var targets := NetZeroTargets(bau);
    if targets.Err? then Err(targets.error)
    else
      var years := YearsTo(horizon);
      var required := Requirements(bau, targets.value, years);
      if required.Err? then Err(required.error)
      else Ok(Problem(years, Bounds(techs, years), required.value))
  }

  /**
   * The problem can be built exactly when there is a BAU row for 2025 and for
   * every planning year and the horizon does not pass 2050.
   */
  lemma {:induction false} SetupProblemOk(techs: seq<TechOption>, bau: seq<BauPoint>, horizon: int)
    ensures SetupProblem(techs, bau, horizon).Ok? <==>
              BauAt(bau, BaseYear).Ok? && horizon <= NetZeroYear &&
              forall y :: BaseYear <= y <= horizon ==> BauAt(bau, y).Ok?
  {
    var targets := NetZeroTargets(bau);
    if targets.Ok? {
      var years := YearsTo(horizon);
      RequirementsSpec(bau, targets.value, years);
      if SetupProblem(techs, bau, horizon).Ok? {
        assert Covered(bau, targets.value, years);
        forall y | BaseYear <= y <= horizon
          ensures BauAt(bau, y).Ok?
        {
          assert y in years;
        }
      } else if horizon <= NetZeroYear {
        assert !Covered(bau, targets.value, years);
        var y :| y in years && !(BauAt(bau, y).Ok? && y in targets.value);
        assert BaseYear <= y <= horizon && BauAt(bau, y).Err?;
      }
    }
  }

  /**
   * The requirement of a built problem is BAU minus the linear target for
   * every planning year, so it is 0 in 2025 and the whole BAU emission in 2050.
   */
  lemma {:induction false} SetupProblemRequired(techs: seq<TechOption>, bau: seq<BauPoint>, horizon: int)
    requires SetupProblem(techs, bau, horizon).Ok?
    ensures var p := SetupProblem(techs, bau, horizon).value;
            var b := BauAt(bau, BaseYear).value;
            (forall y :: y in p.required <==> BaseYear <= y <= horizon) &&
            (forall y :: y in p.required ==> BauAt(bau, y).Ok? && p.required[y] == BauAt(bau, y).value - LinearTarget(b, y)) &&
            (BaseYear in p.required ==> p.required[BaseYear] == 0.0) &&
            (NetZeroYear in p.required ==> p.required[NetZeroYear] == BauAt(bau, NetZeroYear).value)
  {
    var b := BauAt(bau, BaseYear).value;
    var targets := TargetMap(b);
    var years := YearsTo(horizon);
    RequirementsSpec(bau, targets, years);
    var m := Requirements(bau, targets, years).value;
    assert SetupProblem(techs, bau, horizon).value.required == m;
    forall y | y in m
      ensures BauAt(bau, y).Ok? && m[y] == BauAt(bau, y).value - LinearTarget(b, y)
    {
      assert y in targets;
    }
    LinearTargetPath(b, BaseYear);
  }

  /** `RampUp_{tech}_{year}`: from the year after its start, a row rises by at most its ramp-up share. */
  predicate RampHolds(techs: seq<TechOption>, years: seq<int>, d: Decision)
  {
    forall i, y :: 0 <= i < |techs| && y in years && y > techs[i].startYear ==> RampStepHolds(techs[i], d, y)
  }

  /** Where the row has variables in `y - 1` and `y`, the later is at most one ramp-up share above the earlier. */
  predicate RampStepHolds(t: TechOption, d: Decision, y: int)
  {
    (t.techId, y) in d && (t.techId, y - 1) in d ==> d[(t.techId, y)] <= d[(t.techId, y - 1)] + t.rampPerYear
  }

  /** A candidate decision satisfying every constraint of the problem. */
  predicate Feasible(techs: seq<TechOption>, p: Problem, d: Decision)
  {
    WithinBounds(p.bounds, d) && TargetsMet(techs, p.years, p.required, d) &&
    RampHolds(techs, p.years, d) && CompetitionHolds(techs, p.years, d)
  }

  /** Both years have a variable of the row, and the later is at most the ramp-up allowance above the earlier. */
  predicate RampWithin(t: TechOption, d: Decision, earlier: int, later: int)
  {
    (t.techId, earlier) in d && (t.techId, later) in d &&
    d[(t.techId, later)] <= d[(t.techId, earlier)] + MaxIncrease(t.rampPerYear, later - earlier)
  }

  /**
   * In a decision within the bounds that keeps the ramp rule, a technology's
   * deployment in a planning year is at most one ramp-up share per year above
   * its deployment in any earlier year at or after its start.
   */
  lemma {:induction false} RampBound(techs: seq<TechOption>, horizon: int, d: Decision, i: nat, y0: int, y1: int)
    requires WithinBounds(Bounds(techs, YearsTo(horizon)), d) && RampHolds(techs, YearsTo(horizon), d)
    requires i < |techs| && techs[i].startYear <= y0 && BaseYear <= y0 <= y1 <= horizon
    ensures RampWithin(techs[i], d, y0, y1)
  {
    var t := techs[i];
    forall y | y0 <= y <= y1
      ensures (t.techId, y) in d
    {
      VariableExists(techs, horizon, d, i, y);
    }
    forall y | y0 < y <= y1
      ensures RampStepHolds(t, d, y)
    {
      assert y in YearsTo(horizon);
    }
    RampChain(t, d, y0, y1);
  }

  /** Chains the single-year ramp steps between two years of one row. */
  lemma {:induction false} RampChain(t: TechOption, d: Decision, y0: int, y1: int)
    requires y0 <= y1
    requires forall y :: y0 <= y <= y1 ==> (t.techId, y) in d
    requires forall y :: y0 < y <= y1 ==> RampStepHolds(t, d, y)
    ensures RampWithin(t, d, y0, y1)
    decreases y1 - y0
  {
    if y1 > y0 {
      RampChain(t, d, y0, y1 - 1);
      assert RampStepHolds(t, d, y1);
      RampExtend(t, d, y0, y1);
    } else {
      MaxIncreaseAdditive(t.rampPerYear, 0, 0);
      assert y1 - y0 == 0;
    }
  }

  /** One more year of ramp-up on top of an allowance over the years before. */
  lemma {:induction false} RampExtend(t: TechOption, d: Decision, y0: int, y1: int)
    requires RampWithin(t, d, y0, y1 - 1) && (t.techId, y1) in d && RampStepHolds(t, d, y1)
    ensures RampWithin(t, d, y0, y1)
  {
    MaxIncreaseAdditive(t.rampPerYear, y1 - 1 - y0, 1);
  }

  /** A listed year at or after a row's start has a variable. */
  lemma {:induction false} VariableExists(techs: seq<TechOption>, horizon: int, d: Decision, i: nat, y: int)
    requires WithinBounds(Bounds(techs, YearsTo(horizon)), d)
    requires i < |techs| && y >= techs[i].startYear && BaseYear <= y <= horizon
    ensures (techs[i].techId, y) in d
  {
    BoundsDomain(techs, YearsTo(horizon), (techs[i].techId, y));
    assert Creates(techs[i], YearsTo(horizon), (techs[i].techId, y));
  }

  // ------------------------------------------------------------ results and pathway

  /** A row of the optimised pathway. */
  datatype PathwayPoint = PathwayPoint(year: int, bauMt: real, targetMt: real, optimizedMt: real,
                                       abatementMt: real, gapMt: real)

  function PointOf(year: int, bauMt: real, targetMt: real, abatementMt: real): PathwayPoint
  {
    var optimized := bauMt - abatementMt;
    PathwayPoint(year, bauMt, targetMt, optimized, abatementMt, Max(0.0, optimized - targetMt))
  }

  /**
   * The gap is never negative, is 0 exactly when the optimised emissions are
   * at or below the target, and is otherwise the excess over the target.
   */
  lemma {:induction false} GapMeaning(year: int, bauMt: real, targetMt: real, abatementMt: real)
    ensures var p := PointOf(year, bauMt, targetMt, abatementMt);
            p.optimizedMt + p.abatementMt == bauMt &&
            p.gapMt >= 0.0 &&
            (p.gapMt == 0.0 <==> p.optimizedMt <= targetMt) &&
            (p.gapMt > 0.0 ==> p.gapMt == p.optimizedMt - targetMt)
  {
  }

  /**
   * `create_emission_pathway_analysis`: per planning year the BAU emission
   * (IndexError without a row), the recorded abatement (AttributeError before
   * any solution, KeyError on an empty results table), and the target (KeyError).
   */
  function PathwayRows(bau: seq<BauPoint>, targets: map<int, real>, years: seq<int>,
                       results: Option<seq<Recorded>>): Result<seq<PathwayPoint>>
  {
    if |years| == 0 then Ok([])
    else
      var init := PathwayRows(bau, targets, years[..|years| - 1], results);
      var y := years[|years| - 1];
      if init.Err? then init
      else if BauAt(bau, y).Err? then Err(IndexError)
      else if results.None? then Err(AttributeError)
      else if |results.value| == 0 then Err(KeyError)
      else if y !in targets then Err(KeyError)
      else Ok(init.value + [PointOf(y, BauAt(bau, y).value, targets[y], RecordedAbatement(results.value, y))])
  }

  lemma {:induction false} PathwayRowsSpec(bau: seq<BauPoint>, targets: map<int, real>, years: seq<int>,
                                           results: Option<seq<Recorded>>)
    requires PathwayRows(bau, targets, years, results).Ok?
    ensures var rows := PathwayRows(bau, targets, years, results).value;
            |rows| == |years| &&
            forall j :: 0 <= j < |rows| ==>
              years[j] in targets && BauAt(bau, years[j]).Ok? && results.Some? &&
              rows[j] == PointOf(years[j], BauAt(bau, years[j]).value, targets[years[j]],
                                 RecordedAbatement(results.value, years[j]))
  {
    if |years| > 0 {
      PathwayRowsSpec(bau, targets, years[..|years| - 1], results);
    }
  }

  /**
   * A feasible decision with no negligible level closes every gap: the
   * abatement the recorded rows show in each planning year reaches the
   * requirement, so the optimised emissions are at or below the target.
   */
  lemma {:induction false} FeasibleClosesGap(techs: seq<TechOption>, bau: seq<BauPoint>, horizon: int, d: Decision)
    requires SetupProblem(techs, bau, horizon).Ok?
    requires Feasible(techs, SetupProblem(techs, bau, horizon).value, d) && NoNegligibleLevels(d)
    requires PathwayRows(bau, NetZeroTargets(bau).value, YearsTo(horizon), Some(Results(techs, YearsTo(horizon), d))).Ok?
    ensures var rows := PathwayRows(bau, NetZeroTargets(bau).value, YearsTo(horizon),
                                    Some(Results(techs, YearsTo(horizon), d))).value;
            forall pt :: pt in rows ==> pt.gapMt == 0.0
  {
    var years := YearsTo(horizon);
    var targets := NetZeroTargets(bau).value;
    var results := Results(techs, years, d);
    var p := SetupProblem(techs, bau, horizon).value;
    RequirementsSpec(bau, targets, years);
    PathwayRowsSpec(bau, targets, years, Some(results));
    var rows := PathwayRows(bau, targets, years, Some(results)).value;
    forall pt | pt in rows
      ensures pt.gapMt == 0.0
    {
      var j :| 0 <= j < |rows| && rows[j] == pt;
      var y := years[j];
      RecordedAbatementIsYearAbatement(techs, years, d, y);
      assert YearAbatement(techs, d, y) >= p.required[y];
    }
  }

  // ------------------------------------------------------------ facility transitions

  /** Higher emission intensity first, then the older facility (the smaller start year). */
  function IntensityThenAge(a: TransitionFill.FacilityRecord, b: TransitionFill.FacilityRecord): bool
  {
    a.intensity > b.intensity || (a.intensity == b.intensity && a.startYear <= b.startYear)
  }

  /** The abatement rate of a technology: its first recorded abatement over the 52 Mt industry total. */
  function FirstAbatementRate(d: TransitionFill.TechDeployment): real
  {
    d.firstAbatementMt / TransitionFill.IndustryTotalMt
  }

  lemma {:induction false} IntensityThenAgeTotal()
    ensures Sorting.TotalPreorder(IntensityThenAge)
  {
  }

  /**
   * Within one technology the transitions run in descending emission
   * intensity, and among equal intensities in descending age in 2025.
   */
  lemma {:induction false} TransitionBlockOrder(facilities: seq<TransitionFill.FacilityRecord>, d: TransitionFill.TechDeployment)
    ensures var ts := TransitionFill.TransitionsFor(
                        Sorting.SortBy(TransitionFill.Eligible(facilities, d.product), IntensityThenAge), d,
                        FirstAbatementRate(d));
            forall k, l :: 0 <= k < l < |ts| ==>
              ts[k].intensity > ts[l].intensity || (ts[k].intensity == ts[l].intensity && ts[k].age2025 >= ts[l].age2025)
  {
    var ordered := Sorting.SortBy(TransitionFill.Eligible(facilities, d.product), IntensityThenAge);
    IntensityThenAgeTotal();
    Sorting.SortBySorted(TransitionFill.Eligible(facilities, d.product), IntensityThenAge);
    var ts := TransitionFill.TransitionsFor(ordered, d, FirstAbatementRate(d));
    forall k, l | 0 <= k < l < |ts|
      ensures ts[k].intensity > ts[l].intensity || (ts[k].intensity == ts[l].intensity && ts[k].age2025 >= ts[l].age2025)
    {
      assert IntensityThenAge(ordered[k], ordered[l]);
    }
  }

  // ------------------------------------------------------------ the script's object

  class MaccBauNetZero {
    const techs: seq<TechOption>
    const bau: seq<BauPoint>
    const facilities: seq<TransitionFill.FacilityRecord>
    /** `netzero_targets`, set by the target calculation. */
    var netzeroTargets: Option<map<int, real>>
    /** `prob`, `deployment_vars` and `years`, set by the problem setup. */
    var problem: Option<Problem>
    /** `results_df` and `total_optimization_cost`, set by the extraction. */
    var results: Option<seq<Recorded>>
    var totalCost: real
    var pathway: Option<seq<PathwayPoint>>
    var transitions: Option<seq<TransitionFill.TransitionRow>>

    /** A built problem comes with its targets. */
    predicate Valid()
      reads this
    {
      problem.Some? ==> netzeroTargets.Some?
    }

    constructor (techs: seq<TechOption>, bau: seq<BauPoint>, facilities: seq<TransitionFill.FacilityRecord>)
      ensures this.techs == techs && this.bau == bau && this.facilities == facilities
      ensures netzeroTargets.None? && problem.None? && results.None? && pathway.None? && transitions.None?
      ensures Valid()
    {
      this.techs := techs;
      this.bau := bau;
      this.facilities := facilities;
      netzeroTargets := None;
      problem := None;
      results := None;
      totalCost := 0.0;
      pathway := None;
      transitions := None;
    }

    /** `calculate_linear_netzero_targets`, filling the map year by year. */
    method CalculateLinearNetZeroTargets() returns (r: Result<map<int, real>>)
      requires Valid()
      modifies this
      ensures Valid()
      ensures r == NetZeroTargets(bau)
      ensures netzeroTargets == if r.Ok? then Some(r.value) else old(netzeroTargets)
      ensures problem == old(problem) && results == old(results) && totalCost == old(totalCost)
      ensures pathway == old(pathway) && transitions == old(transitions)
    {
      var b := BauAt(bau, BaseYear);
      if b.Err? {
        return Err(b.error);
      }
      var targets: map<int, real> := map[];
      var year := BaseYear;
      while year <= NetZeroYear
        invariant BaseYear <= year <= NetZeroYear + 1
        invariant targets == map y | BaseYear <= y < year :: LinearTarget(b.value, y)
      {
        targets := targets[year := LinearTarget(b.value, year)];
        year := year + 1;
      }
      assert targets == TargetMap(b.value);
      netzeroTargets := Some(targets);
      r := Ok(targets);
    }

    /** The requirement loop of the setup. */
    method RequirementLoop(targets: map<int, real>, years: seq<int>) returns (r: Result<map<int, real>>)
      ensures r == Requirements(bau, targets, years)
    {
      var required: map<int, real> := map[];
      for j := 0 to |years|
        invariant Requirements(bau, targets, years[..j]) == Ok(required)
      {
        assert years[..j + 1][..j] == years[..j];
        var y := years[j];
        var b := BauAt(bau, y);
        if b.Err? {
          RequirementsFailed(targets, years, j + 1);
          return Err(IndexError);
        }
        if y !in targets {
          RequirementsFailed(targets, years, j + 1);
          return Err(KeyError);
        }
        required := required[y := b.value - targets[y]];
      }
      assert years[..|years|] == years;
      r := Ok(required);
    }

    /** Once a prefix of the years fails, every longer prefix fails the same way. */
    lemma {:induction false} RequirementsFailed(targets: map<int, real>, years: seq<int>, j: nat)
      requires 0 < j <= |years| && Requirements(bau, targets, years[..j]).Err?
      ensures Requirements(bau, targets, years) == Requirements(bau, targets, years[..j])
      decreases |years| - j
    {
      if j < |years| {
        assert years[..j + 1][..j] == years[..j];
        RequirementsFailed(targets, years, j + 1);
      } else {
        assert years[..j] == years;
      }
    }

    /** `setup_optimization_problem(planning_horizon)`. */
    method SetupOptimizationProblem(horizon: int) returns (r: Result<Problem>)
      requires Valid()
      modifies this
      ensures Valid()
      ensures r == SetupProblem(techs, bau, horizon)
      ensures netzeroTargets == if NetZeroTargets(bau).Ok? then Some(NetZeroTargets(bau).value) else old(netzeroTargets)
      ensures problem == if r.Ok? then Some(r.value) else old(problem)
      ensures results == old(results) && totalCost == old(totalCost)
      ensures pathway == old(pathway) && transitions == old(transitions)
    {
      var targets := CalculateLinearNetZeroTargets();
      if targets.Err? {
        return Err(targets.error);
      }
      var years := YearsTo(horizon);
      var bounds := CreateVariables(techs, years);
      var required := RequirementLoop(targets.value, years);
      if required.Err? {
        return Err(required.error);
      }
      problem := Some(Problem(years, bounds, required.value));
      r := Ok(Problem(years, bounds, required.value));
    }

    /**
     * `solve_optimization`, given the solver's values (None when the status
     * is not optimal): the recorded rows and their total discounted cost. An
     * empty results table has no `TechID` column to count (KeyError), after
     * the fields are set.
     */
    method SolveOptimization(solution: Option<Decision>) returns (r: Result<Option<seq<Recorded>>>)
      requires Valid()
      modifies this
      ensures Valid()
      ensures old(problem).None? ==> r == Err(AttributeError) && results == old(results)
      ensures old(problem).Some? && solution.None? ==> r == Ok(None) && results == old(results)
      ensures old(problem).Some? && solution.Some? ==>
                var p := old(problem).value;
                var rows := Results(techs, p.years, SolvedValues(p.bounds, solution.value));
                results == Some(rows) && totalCost == TotalDiscounted(rows) &&
                r == if |rows| == 0 then Err(KeyError) else Ok(Some(rows))
      ensures netzeroTargets == old(netzeroTargets) && problem == old(problem)
      ensures pathway == old(pathway) && transitions == old(transitions)
    {
      if problem.None? {
        return Err(AttributeError);
      }
      if solution.None? {
        return Ok(None);
      }
      var p := problem.value;
      var rows, cost := ExtractResults(techs, p.years, SolvedValues(p.bounds, solution.value));
      results := Some(rows);
      totalCost := cost;
      if |rows| == 0 {
        return Err(KeyError);
      }
      r := Ok(Some(rows));
    }

    /** The pathway loop over the planning years. */
    method PathwayLoop(targets: map<int, real>, years: seq<int>, rows: Option<seq<Recorded>>)
      returns (r: Result<seq<PathwayPoint>>)
      ensures r == PathwayRows(bau, targets, years, rows)
    {
      var out: seq<PathwayPoint> := [];
      for j := 0 to |years|
        invariant PathwayRows(bau, targets, years[..j], rows) == Ok(out)
      {
        assert years[..j + 1][..j] == years[..j];
        var y := years[j];
        var b := BauAt(bau, y);
        var e: Option<PyError> := None;
        if b.Err? {
          e := Some(IndexError);
        } else if rows.None? {
          e := Some(AttributeError);
        } else if |rows.value| == 0 || y !in targets {
          e := Some(KeyError);
        }
        if e.Some? {
          PathwayFailed(targets, years, rows, j + 1);
          return Err(e.value);
        }
        out := out + [PointOf(y, b.value, targets[y], RecordedAbatement(rows.value, y))];
      }
      assert years[..|years|] == years;
      r := Ok(out);
    }

    lemma {:induction false} PathwayFailed(targets: map<int, real>, years: seq<int>, rows: Option<seq<Recorded>>, j: nat)
      requires 0 < j <= |years| && PathwayRows(bau, targets, years[..j], rows).Err?
      ensures PathwayRows(bau, targets, years, rows) == PathwayRows(bau, targets, years[..j], rows)
      decreases |years| - j
    {
      if j < |years| {
        assert years[..j + 1][..j] == years[..j];
        PathwayFailed(targets, years, rows, j + 1);
      } else {
        assert years[..j] == years;
      }
    }

    /** `create_emission_pathway_analysis`: AttributeError before the problem is set up. */
    method CreateEmissionPathwayAnalysis() returns (r: Result<seq<PathwayPoint>>)
      requires Valid()
      modifies this
      ensures Valid()
      ensures problem.None? ==> r == Err(AttributeError)
      ensures problem.Some? ==> r == PathwayRows(bau, netzeroTargets.value, problem.value.years, results)
      ensures pathway == if r.Ok? then Some(r.value) else old(pathway)
      ensures netzeroTargets == old(netzeroTargets) && problem == old(problem) && results == old(results)
      ensures totalCost == old(totalCost) && transitions == old(transitions)
    {
      if problem.None? {
        return Err(AttributeError);
      }
      r := PathwayLoop(netzeroTargets.value, problem.value.years, results);
      if r.Ok? {
        pathway := Some(r.value);
      }
    }

    /**
     * `analyze_facility_transitions`: facilities by descending intensity then
     * age, each technology's rate its first recorded abatement over 52 Mt.
     */
    method AnalyzeFacilityTransitions() returns (r: Result<seq<TransitionFill.TransitionRow>>)
      requires Valid()
      modifies this
      ensures Valid()
      ensures old(results).None? ==> r == Err(AttributeError)
      ensures old(results).Some? ==>
                var rows := AsResultRows(old(results).value);
                (r.Err? <==> |rows| == 0) &&
                (r.Ok? ==> r.value == TransitionFill.AllTransitions(
                                        facilities, TransitionFill.TechDeployments(rows).value,
                                        IntensityThenAge, FirstAbatementRate))
      ensures transitions == if r.Ok? then Some(r.value) else old(transitions)
      ensures netzeroTargets == old(netzeroTargets) && problem == old(problem) && results == old(results)
      ensures totalCost == old(totalCost) && pathway == old(pathway)
    {
      if results.None? {
        return Err(AttributeError);
      }
      r := TransitionFill.AnalyzeTransitions(facilities, AsResultRows(results.value), IntensityThenAge, FirstAbatementRate);
      if r.Ok? {
        transitions := Some(r.value);
      }
    }
  }
}
