/**
 * The MACC optimisation against the emission targets of the target sheet: the
 * LP has variables only for the listed target years, each target year asks
 * for the abatement that brings the BAU emissions down to its target, the
 * ramp-up rule spans the gap between consecutive target years, and the
 * achievement analysis compares the recorded abatement with each target.
 * The script's object keeps each step's output in a field the next step reads.
 */
module TargetSheet {

  import opened Wrappers
  import opened Reals
  import opened DeploymentLp
  import TransitionFill
  import Sorting
  import Ints

  /** A row of the target sheet. */
  datatype EmissionTarget = EmissionTarget(year: int, targetMt: real, source: string)

  /** The `Year` column of the target sheet, in sheet order. */
  function YearsOf(targets: seq<EmissionTarget>): (ys: seq<int>)
    ensures |ys| == |targets| && forall k :: 0 <= k < |targets| ==> ys[k] == targets[k].year
  {
    seq(|targets|, k requires 0 <= k < |targets| => targets[k].year)
  }

  /** The target of a listed year: that of its first row in the sheet. */
  function TargetAt(targets: seq<EmissionTarget>, y: int): (t: real)
    requires exists i :: 0 <= i < |targets| && targets[i].year == y
    ensures exists i :: 0 <= i < |targets| && targets[i].year == y && targets[i].targetMt == t &&
                        forall j :: 0 <= j < i ==> targets[j].year != y
  {
    if targets[0].year == y then targets[0].targetMt
    else
      assert exists i :: 0 <= i < |targets[1..]| && targets[1..][i].year == y by {
        var i :| 0 <= i < |targets| && targets[i].year == y;
        assert targets[1..][i - 1] == targets[i];
      }
      var t := TargetAt(targets[1..], y);
      assert exists i :: 0 <= i < |targets| && targets[i].year == y && targets[i].targetMt == t &&
                         forall j :: 0 <= j < i ==> targets[j].year != y by {
        var i :| 0 <= i < |targets[1..]| && targets[1..][i].year == y && targets[1..][i].targetMt == t &&
                 forall j :: 0 <= j < i ==> targets[1..][j].year != y;
        assert forall j :: 0 < j < i + 1 ==> targets[j] == targets[1..][j - 1];
      }
      t
  }

  // ------------------------------------------------------------ BAU against the targets

  /** A row of the BAU-versus-target comparison. */
  datatype Comparison = Comparison(year: int, bauMt: real, targetMt: real, requiredMt: real, reductionPct: real)

  /** Required abatement BAU − target, and its share of BAU in percent (0 when BAU is not positive). */
  function ComparisonOf(year: int, bauMt: real, targetMt: real): Comparison
  {
    var required := bauMt - targetMt;
    Comparison(year, bauMt, targetMt, required, if bauMt > 0.0 then required / bauMt * 100.0 else 0.0)
  }

  /**
   * The requirement closes the gap from BAU to the target; the reduction is
   * that requirement as a percentage of BAU, and lies in [0, 100] when the
   * target lies between 0 and a positive BAU.
   */
  lemma {:induction false} ReductionPercent(year: int, bauMt: real, targetMt: real)
    ensures var c := ComparisonOf(year, bauMt, targetMt);
            c.bauMt - c.requiredMt == c.targetMt &&
            (bauMt > 0.0 ==> c.reductionPct * bauMt == c.requiredMt * 100.0) &&
            (bauMt <= 0.0 ==> c.reductionPct == 0.0) &&
            (bauMt > 0.0 && 0.0 <= targetMt <= bauMt ==> 0.0 <= c.reductionPct <= 100.0)
  {
    var c := ComparisonOf(year, bauMt, targetMt);
    if bauMt > 0.0 {
      var q := c.requiredMt / bauMt;
      assert q * bauMt == c.requiredMt;
      if 0.0 <= targetMt <= bauMt {
        QuotientBetween(c.requiredMt, 0.0, 1.0, bauMt);
      }
    }
  }

  /** A comparison row as built from the BAU pathway and the target sheet. */
  predicate ComparisonRow(bau: seq<BauPoint>, targets: seq<EmissionTarget>, c: Comparison)
  {
    BauAt(bau, c.year).Ok? && (exists i :: 0 <= i < |targets| && targets[i].year == c.year) &&
    c == ComparisonOf(c.year, BauAt(bau, c.year).value, TargetAt(targets, c.year))
  }

  /**
   * `prepare_targets_and_bau` over the first `n` sheet rows: a comparison row
   * per target year that the BAU pathway lists; other years are skipped.
   */
  function Comparisons(bau: seq<BauPoint>, targets: seq<EmissionTarget>, n: nat): seq<Comparison>
    requires n <= |targets|
  {
    if n == 0 then []
    else
      var y := targets[n - 1].year;
      var b := BauAt(bau, y);
      Comparisons(bau, targets, n - 1) + (if b.Ok? then [ComparisonOf(y, b.value, TargetAt(targets, y))] else [])
  }

  /**
   * Every comparison row is of a listed target year with a BAU row, built from
   * the first BAU row and the first target row of that year.
   */
  lemma {:induction false} ComparisonsRows(bau: seq<BauPoint>, targets: seq<EmissionTarget>, n: nat)
    requires n <= |targets|
    ensures forall c :: c in Comparisons(bau, targets, n) ==>
              ComparisonRow(bau, targets, c) && exists k :: 0 <= k < n && targets[k].year == c.year
  {
    if n > 0 {
      ComparisonsRows(bau, targets, n - 1);
      var y := targets[n - 1].year;
      var b := BauAt(bau, y);
      if b.Ok? {
        assert ComparisonRow(bau, targets, ComparisonOf(y, b.value, TargetAt(targets, y)));
      }
    }
  }

  /** Every listed target year with a BAU row has a comparison row. */
  lemma {:induction false} ComparisonsCover(bau: seq<BauPoint>, targets: seq<EmissionTarget>, n: nat)
    requires n <= |targets|
    ensures forall k :: 0 <= k < n && BauAt(bau, targets[k].year).Ok? ==>
              exists c :: c in Comparisons(bau, targets, n) && c.year == targets[k].year
  {
    if n > 0 {
      ComparisonsCover(bau, targets, n - 1);
      var init := Comparisons(bau, targets, n - 1);
      var rows := Comparisons(bau, targets, n);
      assert forall c :: c in init ==> c in rows;
      var y := targets[n - 1].year;
      var b := BauAt(bau, y);
      if b.Ok? {
        assert ComparisonOf(y, b.value, TargetAt(targets, y)) in rows;
      }
    }
  }

  /** The first comparison row of a year; IndexError when there is none. */
  function FindComparison(rows: seq<Comparison>, y: int): (r: Result<Comparison>)
    ensures r.Ok? <==> exists c :: c in rows && c.year == y
    ensures r.Ok? ==> r.value in rows && r.value.year == y
    ensures r.Err? ==> r.error == IndexError
  {
    if |rows| == 0 then Err(IndexError)
    else if rows[0].year == y then Ok(rows[0])
    else
      assert forall c :: c in rows <==> c == rows[0] || c in rows[1..];
      FindComparison(rows[1..], y)
  }

  /**
   * `target_comparison_df[Year == year].iloc[0]`: an empty comparison table
   * has no `Year` column (KeyError); a year without a row raises IndexError.
   */
  function ComparisonFor(rows: seq<Comparison>, y: int): (r: Result<Comparison>)
  {
    if |rows| == 0 then Err(KeyError) else FindComparison(rows, y)
  }

  // ------------------------------------------------------------ the problem

  /** Constraint 1 of the setup: each target year's requirement, read from its comparison row. */
  function Requirements(rows: seq<Comparison>, years: seq<int>): Result<map<int, real>>
  {
    if |years| == 0 then Ok(map[])
    else
      var init := Requirements(rows, years[..|years| - 1]);
      var y := years[|years| - 1];
      var c := ComparisonFor(rows, y);
      if init.Err? then init
      else if c.Err? then Err(c.error)
      else Ok(init.value[y := c.value.requiredMt])
  }

  lemma {:induction false} RequirementsSpec(rows: seq<Comparison>, years: seq<int>)
    ensures Requirements(rows, years).Ok? <==> forall y :: y in years ==> ComparisonFor(rows, y).Ok?
    ensures Requirements(rows, years).Err? ==> Requirements(rows, years).error == if |rows| == 0 then KeyError else IndexError
    ensures Requirements(rows, years).Ok? ==>
              var m := Requirements(rows, years).value;
              (forall y :: y in m <==> y in years) &&
              forall y :: y in m ==> ComparisonFor(rows, y).Ok? && m[y] == ComparisonFor(rows, y).value.requiredMt
  {
    if |years| > 0 {
      var init := years[..|years| - 1];
      RequirementsSpec(rows, init);
      assert forall y :: y in years <==> y in init || y == years[|years| - 1];
    }
  }

  /** The LP as built: its target years, its variables with their upper bounds, and each year's requirement. */
  datatype Problem = Problem(years: seq<int>, bounds: map<Key, real>, required: map<int, real>)

  /** `setup_optimization_problem`: variables for the target years, requirements from the comparison. */
  function SetupProblem(techs: seq<TechOption>, bau: seq<BauPoint>, targets: seq<EmissionTarget>): Result<Problem>
  {
    var years := YearsOf(targets);
    var required := Requirements(Comparisons(bau, targets, |targets|), years);
    if required.Err? then Err(required.error)
    else Ok(Problem(years, Bounds(techs, years), required.value))
  }

  /**
   * The problem can be built exactly when every target year has a BAU row.
   * Otherwise the error is KeyError when no target year has one (the
   * comparison table is empty), and IndexError when only some have.
   */
  lemma {:induction false} SetupProblemOk(techs: seq<TechOption>, bau: seq<BauPoint>, targets: seq<EmissionTarget>)
    ensures SetupProblem(techs, bau, targets).Ok? <==> forall k :: 0 <= k < |targets| ==> BauAt(bau, targets[k].year).Ok?
    ensures SetupProblem(techs, bau, targets).Err? ==>
              (SetupProblem(techs, bau, targets).error == KeyError <==>
               forall k :: 0 <= k < |targets| ==> BauAt(bau, targets[k].year).Err?) &&
              SetupProblem(techs, bau, targets).error in {KeyError, IndexError}
  {
    var years := YearsOf(targets);
    var rows := Comparisons(bau, targets, |targets|);
    ComparisonsRows(bau, targets, |targets|);
    ComparisonsCover(bau, targets, |targets|);
    RequirementsSpec(rows, years);
    if SetupProblem(techs, bau, targets).Ok? {
      forall k | 0 <= k < |targets|
        ensures BauAt(bau, targets[k].year).Ok?
      {
        assert years[k] in years;
        var c := FindComparison(rows, targets[k].year).value;
        assert ComparisonRow(bau, targets, c);
      }
    } else {
      if |rows| > 0 {
        assert rows[0] in rows;
        var k :| 0 <= k < |targets| && targets[k].year == rows[0].year;
        assert ComparisonRow(bau, targets, rows[0]);
      }
    }
  }

  /**
   * Each target year of a built problem requires BAU minus its sheet target,
   * and only target years have a requirement.
   */
  lemma {:induction false} SetupProblemRequired(techs: seq<TechOption>, bau: seq<BauPoint>, targets: seq<EmissionTarget>)
    requires SetupProblem(techs, bau, targets).Ok?
    ensures var p := SetupProblem(techs, bau, targets).value;
            (forall y :: y in p.required <==> exists k :: 0 <= k < |targets| && targets[k].year == y) &&
            forall y :: y in p.required ==>
              (exists k :: 0 <= k < |targets| && targets[k].year == y) && BauAt(bau, y).Ok? &&
              p.required[y] == BauAt(bau, y).value - TargetAt(targets, y)
  {
    var years := YearsOf(targets);
    var rows := Comparisons(bau, targets, |targets|);
    ComparisonsRows(bau, targets, |targets|);
    RequirementsSpec(rows, years);
    var m := SetupProblem(techs, bau, targets).value.required;
    forall y
      ensures y in m <==> exists k :: 0 <= k < |targets| && targets[k].year == y
    {
      if y in m {
        var k :| 0 <= k < |years| && years[k] == y;
        assert targets[k].year == y;
      }
      if exists k :: 0 <= k < |targets| && targets[k].year == y {
        var k :| 0 <= k < |targets| && targets[k].year == y;
        assert years[k] in years;
      }
    }
    forall y | y in m
      ensures BauAt(bau, y).Ok? && (exists k :: 0 <= k < |targets| && targets[k].year == y) &&
              m[y] == BauAt(bau, y).value - TargetAt(targets, y)
    {
      var c := ComparisonFor(rows, y).value;
      assert ComparisonRow(bau, targets, c);
      ReductionPercent(y, BauAt(bau, y).value, TargetAt(targets, y));
    }
  }

  // ------------------------------------------------------------ ramp-up between target years

  /**
   * `RampUp_{tech}_{prev}_{curr}`: between consecutive years of the sorted
   * target years, a row's deployment rises by at most its ramp-up share times
   * the gap, wherever both variables exist.
   */
  predicate RampHolds(techs: seq<TechOption>, sorted: seq<int>, d: Decision)
  {
    forall i, j :: 0 <= i < |techs| && 1 <= j < |sorted| &&
                   (techs[i].techId, sorted[j - 1]) in d && (techs[i].techId, sorted[j]) in d ==>
      d[(techs[i].techId, sorted[j])] <= d[(techs[i].techId, sorted[j - 1])] + MaxIncrease(techs[i].rampPerYear, sorted[j] - sorted[j - 1])
  }

  /** A candidate decision satisfying every constraint of the problem. */
  predicate Feasible(techs: seq<TechOption>, p: Problem, d: Decision)
  {
    WithinBounds(p.bounds, d) && TargetsMet(techs, p.years, p.required, d) &&
    RampHolds(techs, Ints.SortInts(p.years), d) && CompetitionHolds(techs, p.years, d)
  }

  /** A target year at or after a row's start has a variable. */
  lemma {:induction false} VariableExists(techs: seq<TechOption>, years: seq<int>, d: Decision, i: nat, y: int)
    requires WithinBounds(Bounds(techs, years), d)
    requires i < |techs| && y in years && y >= techs[i].startYear
    ensures (techs[i].techId, y) in d
  {
    BoundsDomain(techs, years, (techs[i].techId, y));
    assert Creates(techs[i], years, (techs[i].techId, y));
  }

  /** Both years have a variable of the row, and the later one is at most the ramp-up allowance above the earlier one. */
  predicate RampWithin(t: TechOption, d: Decision, earlier: int, later: int)
  {
    (t.techId, earlier) in d && (t.techId, later) in d &&
    d[(t.techId, later)] <= d[(t.techId, earlier)] + MaxIncrease(t.rampPerYear, later - earlier)
  }

  /**
   * Chained over sorted target years `s`: from a target year at or after a
   * row's start to any later one, its deployment rises by at most its ramp-up
   * share times the years between them.
   */
  lemma {:induction false} RampChain(techs: seq<TechOption>, years: seq<int>, s: seq<int>, d: Decision,
                                     i: nat, a: nat, b: nat)
    requires WithinBounds(Bounds(techs, years), d) && RampHolds(techs, s, d)
    requires Ints.Sorted(s) && forall k :: 0 <= k < |s| ==> s[k] in years
    requires i < |techs| && a <= b < |s| && techs[i].startYear <= s[a]
    ensures RampWithin(techs[i], d, s[a], s[b])
    decreases b
  {
    VariableExists(techs, years, d, i, s[b]);
    if b > a {
      RampChain(techs, years, s, d, i, a, b - 1);
      MaxIncreaseAdditive(techs[i].rampPerYear, s[b - 1] - s[a], s[b] - s[b - 1]);
    } else {
      VariableExists(techs, years, d, i, s[a]);
    }
  }

  /** The sorted target years are sorted and are target years. */
  lemma {:induction false} SortedYears(years: seq<int>)
    ensures Ints.Sorted(Ints.SortInts(years))
    ensures forall k :: 0 <= k < |Ints.SortInts(years)| ==> Ints.SortInts(years)[k] in years
  {
    var s := Ints.SortInts(years);
    Ints.SortIntsProperties(years);
    forall k | 0 <= k < |s|
      ensures s[k] in years
    {
      assert s[k] in multiset(s);
    }
  }

  /**
   * In a feasible decision, a row's deployment in a later target year is at
   * most its deployment in an earlier target year at or after its start plus
   * its ramp-up share times the years between them.
   */
  lemma {:induction false} FeasibleRamp(techs: seq<TechOption>, p: Problem, d: Decision, i: nat, a: nat, b: nat)
    requires p.bounds == Bounds(techs, p.years) && Feasible(techs, p, d)
    requires i < |techs| && a <= b < |Ints.SortInts(p.years)| && techs[i].startYear <= Ints.SortInts(p.years)[a]
    ensures RampWithin(techs[i], d, Ints.SortInts(p.years)[a], Ints.SortInts(p.years)[b])
  {
    SortedYears(p.years);
    RampChain(techs, p.years, Ints.SortInts(p.years), d, i, a, b);
  }

  // ------------------------------------------------------------ achievement

  /** A row of the target achievement analysis. */
  datatype Achievement = Achievement(year: int, bauMt: real, targetMt: real, requiredMt: real, achievedMt: real,
                                     optimizedMt: real, achievementPct: real, compliant: bool, gapMt: real)

  function AchievementOf(c: Comparison, achievedMt: real): Achievement
  {
    var optimized := c.bauMt - achievedMt;
    Achievement(c.year, c.bauMt, c.targetMt, c.requiredMt, achievedMt, optimized,
                if c.requiredMt > 0.0 then achievedMt / c.requiredMt * 100.0 else 100.0,
                optimized <= c.targetMt, optimized - c.targetMt)
  }

  /**
   * For a comparison row, a year complies exactly when the achieved abatement
   * reaches the requirement, exactly when its gap is not positive; with a
   * positive requirement that is an achievement of at least 100 %.
   */
  lemma {:induction false} AchievementMeaning(year: int, bauMt: real, targetMt: real, achievedMt: real)
    ensures var c := ComparisonOf(year, bauMt, targetMt);
            var a := AchievementOf(c, achievedMt);
            (a.compliant <==> achievedMt >= c.requiredMt) &&
            (a.compliant <==> a.gapMt <= 0.0) &&
            a.gapMt == c.requiredMt - achievedMt &&
            (c.requiredMt > 0.0 ==> (a.compliant <==> a.achievementPct >= 100.0)) &&
            (c.requiredMt <= 0.0 ==> a.achievementPct == 100.0)
  {
    var c := ComparisonOf(year, bauMt, targetMt);
    if c.requiredMt > 0.0 {
      var q := achievedMt / c.requiredMt;
      assert q * c.requiredMt == achievedMt;
      assert q >= 1.0 <==> achievedMt >= c.requiredMt;
    }
  }

  /**
   * `create_results_analysis`: per target year its comparison row, then the
   * recorded abatement of that year (AttributeError before any solution,
   * KeyError on an empty results table).
   */
  function Achievements(rows: seq<Comparison>, years: seq<int>, results: Option<seq<Recorded>>): Result<seq<Achievement>>
  {
    if |years| == 0 then Ok([])
    else
      var init := Achievements(rows, years[..|years| - 1], results);
      var y := years[|years| - 1];
      var c := ComparisonFor(rows, y);
      if init.Err? then init
      else if c.Err? then Err(c.error)
      else if results.None? then Err(AttributeError)
      else if |results.value| == 0 then Err(KeyError)
      else Ok(init.value + [AchievementOf(c.value, RecordedAbatement(results.value, y))])
  }

  /**
   * The analysis succeeds exactly when every target year has a comparison row
   * and, given any target year, there are recorded rows; then its j-th row is
   * the achievement of the j-th target year.
   */
  lemma {:induction false} AchievementsSpec(rows: seq<Comparison>, years: seq<int>, results: Option<seq<Recorded>>)
    ensures Achievements(rows, years, results).Ok? <==>
              (forall y :: y in years ==> ComparisonFor(rows, y).Ok?) &&
              (|years| > 0 ==> results.Some? && |results.value| > 0)
    ensures Achievements(rows, years, results).Ok? ==>
              var a := Achievements(rows, years, results).value;
              |a| == |years| &&
              forall j :: 0 <= j < |years| ==>
                results.Some? && ComparisonFor(rows, years[j]).Ok? &&
                a[j] == AchievementOf(ComparisonFor(rows, years[j]).value, RecordedAbatement(results.value, years[j]))
  {
    if |years| > 0 {
      var init := years[..|years| - 1];
      AchievementsSpec(rows, init, results);
      assert forall y :: y in years <==> y in init || y == years[|years| - 1];
      if Achievements(rows, years, results).Ok? {
        var a := Achievements(rows, years, results).value;
        var a0 := Achievements(rows, init, results).value;
        assert a == a0 + [a[|years| - 1]];
        forall j | 0 <= j < |years|
          ensures results.Some? && ComparisonFor(rows, years[j]).Ok? &&
                  a[j] == AchievementOf(ComparisonFor(rows, years[j]).value, RecordedAbatement(results.value, years[j]))
        {
          if j < |init| {
            assert years[j] == init[j];
          }
        }
      }
    }
  }

  /**
   * A decision satisfying the problem built from distinct target years, with
   * no negligible level, complies with every target in the achievement
   * analysis of its recorded rows.
   */
  lemma {:induction false} FeasibleMeetsTargets(techs: seq<TechOption>, bau: seq<BauPoint>, targets: seq<EmissionTarget>, d: Decision)
    requires SetupProblem(techs, bau, targets).Ok?
    requires Feasible(techs, SetupProblem(techs, bau, targets).value, d) && NoNegligibleLevels(d)
    requires Distinct(YearsOf(targets))
    requires Achievements(Comparisons(bau, targets, |targets|), YearsOf(targets),
                          Some(Results(techs, YearsOf(targets), d))).Ok?
    ensures var a := Achievements(Comparisons(bau, targets, |targets|), YearsOf(targets),
                                  Some(Results(techs, YearsOf(targets), d))).value;
            forall row :: row in a ==> Complies(row)
  {
    var p := SetupProblem(techs, bau, targets).value;
    assert TargetsMet(techs, YearsOf(targets), p.required, d);
    TargetsMetCompliant(techs, bau, targets, d);
  }

  /** `FeasibleMeetsTargets` for any decision meeting the target constraints. */
  lemma {:induction false} TargetsMetCompliant(techs: seq<TechOption>, bau: seq<BauPoint>, targets: seq<EmissionTarget>, d: Decision)
    requires SetupProblem(techs, bau, targets).Ok?
    requires TargetsMet(techs, YearsOf(targets), SetupProblem(techs, bau, targets).value.required, d)
    requires NoNegligibleLevels(d)
    requires Distinct(YearsOf(targets))
    requires Achievements(Comparisons(bau, targets, |targets|), YearsOf(targets),
                          Some(Results(techs, YearsOf(targets), d))).Ok?
    ensures var a := Achievements(Comparisons(bau, targets, |targets|), YearsOf(targets),
                                  Some(Results(techs, YearsOf(targets), d))).value;
            forall row :: row in a ==> Complies(row)
  {
    var rows := Comparisons(bau, targets, |targets|);
    ComparisonsRows(bau, targets, |targets|);
    forall c | c in rows
      ensures c.bauMt - c.requiredMt == c.targetMt
    {
      assert ComparisonRow(bau, targets, c);
      ReductionPercent(c.year, BauAt(bau, c.year).value, TargetAt(targets, c.year));
    }
    AchievementsComply(techs, rows, YearsOf(targets), SetupProblem(techs, bau, targets).value.required, d);
  }

  /**
   * Over comparison rows whose requirement is BAU minus target: when the
   * requirements read from them are met by the decision, every achievement
   * row of its recorded results complies.
   */
  lemma {:induction false} AchievementsComply(techs: seq<TechOption>, rows: seq<Comparison>, years: seq<int>,
                           required: map<int, real>, d: Decision)
    requires forall c :: c in rows ==> c.bauMt - c.requiredMt == c.targetMt
    requires Requirements(rows, years) == Ok(required) && TargetsMet(techs, years, required, d)
    requires Distinct(years) && NoNegligibleLevels(d)
    requires Achievements(rows, years, Some(Results(techs, years, d))).Ok?
    ensures forall row :: row in Achievements(rows, years, Some(Results(techs, years, d))).value ==> Complies(row)
  {
    var results := Results(techs, years, d);
    RequirementsSpec(rows, years);
    AchievementsSpec(rows, years, Some(results));
    var a := Achievements(rows, years, Some(results)).value;
    forall row | row in a
      ensures Complies(row)
    {
      var j :| 0 <= j < |a| && a[j] == row;
      var y := years[j];
      CompliantYear(techs, years, required, d, y, ComparisonFor(rows, y).value);
    }
  }

  /** A complying achievement row: at or below the target, with no positive gap. */
  predicate Complies(a: Achievement)
  {
    a.compliant && a.gapMt <= 0.0
  }

  /** One target year of `FeasibleMeetsTargets`. */
  lemma {:induction false} CompliantYear(techs: seq<TechOption>, years: seq<int>, required: map<int, real>, d: Decision,
                      y: int, c: Comparison)
    requires Distinct(years) && NoNegligibleLevels(d) && y in years
    requires TargetsMet(techs, years, required, d) && y in required && required[y] == c.requiredMt
    requires c.bauMt - c.requiredMt == c.targetMt
    ensures Complies(AchievementOf(c, RecordedAbatement(Results(techs, years, d), y)))
  {
    RecordedAbatementIsYearAbatement(techs, years, d, y);
  }

  // ------------------------------------------------------------ facility transitions

  /** Higher emission intensity first. */
  function IntensityDescending(a: TransitionFill.FacilityRecord, b: TransitionFill.FacilityRecord): bool
  {
    a.intensity >= b.intensity
  }

  /** The abatement rate of a technology: its mean recorded abatement over the 52 Mt industry total. */
  function MeanAbatementRate(d: TransitionFill.TechDeployment): real
  {
    d.avgAbatementMt / TransitionFill.IndustryTotalMt
  }

  lemma {:induction false} IntensityDescendingTotal()
    ensures Sorting.TotalPreorder(IntensityDescending)
  {
  }

  /** Within one technology the transitions run in descending emission intensity. */
  lemma {:induction false} TransitionBlockOrder(facilities: seq<TransitionFill.FacilityRecord>, d: TransitionFill.TechDeployment)
    ensures var ts := TransitionFill.TransitionsFor(
                        Sorting.SortBy(TransitionFill.Eligible(facilities, d.product), IntensityDescending), d,
                        MeanAbatementRate(d));
            forall k, l :: 0 <= k < l < |ts| ==> ts[k].intensity >= ts[l].intensity
  {
    var ordered := Sorting.SortBy(TransitionFill.Eligible(facilities, d.product), IntensityDescending);
    IntensityDescendingTotal();
    Sorting.SortBySorted(TransitionFill.Eligible(facilities, d.product), IntensityDescending);
    var ts := TransitionFill.TransitionsFor(ordered, d, MeanAbatementRate(d));
    forall k, l | 0 <= k < l < |ts|
      ensures ts[k].intensity >= ts[l].intensity
    {
      assert IntensityDescending(ordered[k], ordered[l]);
    }
  }

  // ------------------------------------------------------------ loops

  /** The constraint-1 loop over the target years. */
  method RequirementLoop(rows: seq<Comparison>, years: seq<int>) returns (r: Result<map<int, real>>)
    ensures r == Requirements(rows, years)
  {
    var required: map<int, real> := map[];
    for j := 0 to |years|
      invariant Requirements(rows, years[..j]) == Ok(required)
    {
      assert years[..j + 1][..j] == years[..j];
      var c := ComparisonFor(rows, years[j]);
      if c.Err? {
        RequirementsFailed(rows, years, j + 1);
        return Err(c.error);
      }
      required := required[years[j] := c.value.requiredMt];
    }
    assert years[..|years|] == years;
    r := Ok(required);
  }

  /** Once a prefix of the years fails, every longer prefix fails the same way. */
  lemma {:induction false} RequirementsFailed(rows: seq<Comparison>, years: seq<int>, j: nat)
    requires 0 < j <= |years| && Requirements(rows, years[..j]).Err?
    ensures Requirements(rows, years) == Requirements(rows, years[..j])
    decreases |years| - j
  {
    if j < |years| {
      assert years[..j + 1][..j] == years[..j];
      RequirementsFailed(rows, years, j + 1);
    } else {
      assert years[..j] == years;
    }
  }

  /** The achievement loop over the target years. */
  method AchievementLoop(rows: seq<Comparison>, years: seq<int>, results: Option<seq<Recorded>>)
    returns (r: Result<seq<Achievement>>)
    ensures r == Achievements(rows, years, results)
  {
    var out: seq<Achievement> := [];
    for j := 0 to |years|
      invariant Achievements(rows, years[..j], results) == Ok(out)
    {
      assert years[..j + 1][..j] == years[..j];
      var y := years[j];
      var c := ComparisonFor(rows, y);
      var e: Option<PyError> := None;
      if c.Err? {
        e := Some(c.error);
      } else if results.None? {
        e := Some(AttributeError);
      } else if |results.value| == 0 {
        e := Some(KeyError);
      }
      if e.Some? {
        AchievementsFailed(rows, years, results, j + 1);
        return Err(e.value);
      }
      out := out + [AchievementOf(c.value, RecordedAbatement(results.value, y))];
    }
    assert years[..|years|] == years;
    r := Ok(out);
  }

  lemma {:induction false} AchievementsFailed(rows: seq<Comparison>, years: seq<int>, results: Option<seq<Recorded>>, j: nat)
    requires 0 < j <= |years| && Achievements(rows, years[..j], results).Err?
    ensures Achievements(rows, years, results) == Achievements(rows, years[..j], results)
    decreases |years| - j
  {
    if j < |years| {
      assert years[..j + 1][..j] == years[..j];
      AchievementsFailed(rows, years, results, j + 1);
    } else {
      assert years[..j] == years;
    }
  }

  // ------------------------------------------------------------ the script's object

  class MaccTargetSheet {
    const techs: seq<TechOption>
    const bau: seq<BauPoint>
    const targets: seq<EmissionTarget>
    const facilities: seq<TransitionFill.FacilityRecord>
    /** `target_comparison_df`, set by the preparation step. */
    var comparison: Option<seq<Comparison>>
    /** `prob`, `deployment_vars` and `target_years`, set by the problem setup. */
    var problem: Option<Problem>
    /** `results_df` and `total_optimization_cost`, set by the extraction. */
    var results: Option<seq<Recorded>>
    var totalCost: real
    var achievements: Option<seq<Achievement>>
    var transitions: Option<seq<TransitionFill.TransitionRow>>

    /** A built problem comes with its comparison table. */
    predicate Valid()
      reads this
    {
      problem.Some? ==> comparison.Some?
    }

    constructor (techs: seq<TechOption>, bau: seq<BauPoint>, targets: seq<EmissionTarget>,
                 facilities: seq<TransitionFill.FacilityRecord>)
      ensures this.techs == techs && this.bau == bau && this.targets == targets && this.facilities == facilities
      ensures comparison.None? && problem.None? && results.None? && achievements.None? && transitions.None?
      ensures Valid()
    {
      this.techs := techs;
      this.bau := bau;
      this.targets := targets;
      this.facilities := facilities;
      comparison := None;
      problem := None;
      results := None;
      totalCost := 0.0;
      achievements := None;
      transitions := None;
    }

    /** `prepare_targets_and_bau`: the comparison loop over the sheet rows. */
    method PrepareTargetsAndBau() returns (rows: seq<Comparison>)
      requires Valid()
      modifies this
      ensures Valid()
      ensures rows == Comparisons(bau, targets, |targets|)
      ensures comparison == Some(rows)
      ensures problem == old(problem) && results == old(results) && totalCost == old(totalCost)
      ensures achievements == old(achievements) && transitions == old(transitions)
    {
      rows := [];
      for k := 0 to |targets|
        invariant rows == Comparisons(bau, targets, k)
      {
        var y := targets[k].year;
        var b := BauAt(bau, y);
        if b.Ok? {
          rows := rows + [ComparisonOf(y, b.value, TargetAt(targets, y))];
        }
      }
      comparison := Some(rows);
    }

    /** `setup_optimization_problem`. */
    method SetupOptimizationProblem() returns (r: Result<Problem>)
      requires Valid()
      modifies this
      ensures Valid()
      ensures r == SetupProblem(techs, bau, targets)
      ensures comparison == Some(Comparisons(bau, targets, |targets|))
      ensures problem == if r.Ok? then Some(r.value) else old(problem)
      ensures results == old(results) && totalCost == old(totalCost)
      ensures achievements == old(achievements) && transitions == old(transitions)
    {
      var rows := PrepareTargetsAndBau();
      var years := YearsOf(targets);
      var bounds := CreateVariables(techs, years);
      var required := RequirementLoop(rows, years);
      if required.Err? {
        return Err(required.error);
      }
      problem := Some(Problem(years, bounds, required.value));
      r := Ok(Problem(years, bounds, required.value));
    }

    /**
     * `solve_optimization`, given the solver's values (None when the status
     * is not optimal): the recorded rows and their total discounted cost. An
     * empty results table has no `TechID` column to count (KeyError), after
     * the fields are set.
     */
    method SolveOptimization(solution: Option<Decision>) returns (r: Result<Option<seq<Recorded>>>)
      requires Valid()
      modifies this
      ensures Valid()
      ensures old(problem).None? ==> r == Err(AttributeError) && results == old(results)
      ensures old(problem).Some? && solution.None? ==> r == Ok(None) && results == old(results)
      ensures old(problem).Some? && solution.Some? ==>
                var p := old(problem).value;
                var rows := Results(techs, p.years, SolvedValues(p.bounds, solution.value));
                results == Some(rows) && totalCost == TotalDiscounted(rows) &&
                r == if |rows| == 0 then Err(KeyError) else Ok(Some(rows))
      ensures comparison == old(comparison) && problem == old(problem)
      ensures achievements == old(achievements) && transitions == old(transitions)
    {
      if problem.None? {
        return Err(AttributeError);
      }
      if solution.None? {
        return Ok(None);
      }
      var p := problem.value;
      var rows, cost := ExtractResults(techs, p.years, SolvedValues(p.bounds, solution.value));
      results := Some(rows);
      totalCost := cost;
      if |rows| == 0 {
        return Err(KeyError);
      }
      r := Ok(Some(rows));
    }

    /** `create_results_analysis`: AttributeError before the problem is set up. */
    method CreateResultsAnalysis() returns (r: Result<seq<Achievement>>)
      requires Valid()
      modifies this
      ensures Valid()
      ensures problem.None? ==> r == Err(AttributeError)
      ensures problem.Some? ==> r == Achievements(comparison.value, problem.value.years, results)
      ensures achievements == if r.Ok? then Some(r.value) else old(achievements)
      ensures comparison == old(comparison) && problem == old(problem) && results == old(results)
      ensures totalCost == old(totalCost) && transitions == old(transitions)
    {
      if problem.None? {
        return Err(AttributeError);
      }
      r := AchievementLoop(comparison.value, problem.value.years, results);
      if r.Ok? {
        achievements := Some(r.value);
      }
    }

    /**
     * `analyze_facility_transitions`: facilities by descending intensity, each
     * technology's rate its mean recorded abatement over 52 Mt.
     */
    method AnalyzeFacilityTransitions() returns (r: Result<seq<TransitionFill.TransitionRow>>)
      requires Valid()
      modifies this
      ensures Valid()
      ensures old(results).None? ==> r == Err(AttributeError)
      ensures old(results).Some? ==>
                var rows := AsResultRows(old(results).value);
                (r.Err? <==> |rows| == 0) &&
                (r.Ok? ==> r.value == TransitionFill.AllTransitions(
                                        facilities, TransitionFill.TechDeployments(rows).value,
                                        IntensityDescending, MeanAbatementRate))
      ensures transitions == if r.Ok? then Some(r.value) else old(transitions)
      ensures comparison == old(comparison) && problem == old(problem) && results == old(results)
      ensures totalCost == old(totalCost) && achievements == old(achievements)
    {
      if results.None? {
        return Err(AttributeError);
      }
      r := TransitionFill.AnalyzeTransitions(facilities, AsResultRows(results.value), IntensityDescending, MeanAbatementRate);
      if r.Ok? {
        transitions := Some(r.value);
      }
    }
  }
}
