/**
 * The data validator: sheet checks of a workbook, cross-sheet id checks,
 * and consistency checks of a scenario, of a portfolio and of the two
 * together. Each check fills a fresh validation result; the specification
 * of each is a function on values and the checks themselves are methods
 * proved equal to it.
 */
module Validators {

  import opened Wrappers
  import opened Reals
  import opened Ints
  import OrderedMaps
  import opened Schemas
  import opened Technology
  import Scenario
  import Portfolio

  /** The sheets of a workbook, by name. */
  type Workbook = map<string, Frame>

  // ---------------------------------------------------- validate_excel_data

  /** The schema sheets, in the order they are checked. */
  const SheetSchemas: seq<(string, Schema)> := [
    ("TransitionPotentials", TransitionPotentialsSchema),
    ("AbatementPotentials", AbatementPotentialsSchema),
    ("AlternativeTechnologies", AlternativeTechnologiesSchema)]

  /** One sheet of the loop: its own checks absorbed when present, a warning when absent. */
  function SheetStep(r: Report, wb: Workbook, sheet: (string, Schema)): Result<Report>
  {
    if sheet.0 in wb then
      match DataframeReport(wb[sheet.0], sheet.1, sheet.0)
      case Err(e) => Err(e)
      case Ok(d) => Ok(r.Absorb(d))
    else Ok(r.WithWarning(SheetNotFound(sheet.0)))
  }

  /** The sheet loop over `sheets` in order; a failing sheet ends it. */
  function SheetsReport(r: Report, wb: Workbook, sheets: seq<(string, Schema)>): (res: Result<Report>)
    ensures res.Err? <==> exists s :: s in sheets && s.0 in wb && DataframeReport(wb[s.0], s.1, s.0).Err?
    ensures res.Err? ==> res.error == TypeError
  {
    if |sheets| == 0 then Ok(r)
    else
      var init := sheets[..|sheets| - 1];
      var last := sheets[|sheets| - 1];
      assert forall s :: s in sheets <==> s in init || s == last;
      match SheetsReport(r, wb, init)
      case Err(e) => Err(e)
      case Ok(r0) => SheetStep(r0, wb, last)
  }

  /**
   * What the sheet loop keeps: consistency, validity exactly when every
   * present sheet is valid, a warning for every absent sheet and every
   * error of every present sheet.
   */
  lemma {:induction false} SheetsReportMeaning(r: Report, wb: Workbook, sheets: seq<(string, Schema)>)
    requires SheetsReport(r, wb, sheets).Ok?
    ensures var res := SheetsReport(r, wb, sheets).value;
            (Consistent(r) ==> Consistent(res)) &&
            res.valid == (r.valid && forall s :: s in sheets && s.0 in wb ==> DataframeReport(wb[s.0], s.1, s.0).value.valid) &&
            (forall s :: s in sheets && s.0 !in wb ==> SheetNotFound(s.0) in res.warnings) &&
            (forall m :: m in r.errors ==> m in res.errors) &&
            (forall s, m :: s in sheets && s.0 in wb && m in DataframeReport(wb[s.0], s.1, s.0).value.errors ==> m in res.errors)
  {
    if |sheets| > 0 {
      var init := sheets[..|sheets| - 1];
      var last := sheets[|sheets| - 1];
      assert forall s :: s in sheets <==> s in init || s == last;
      SheetsReportMeaning(r, wb, init);
      if last.0 in wb {
        assert DataframeReport(wb[last.0], last.1, last.0).Ok?;
      }
    }
  }

  /** One more sheet of the loop. */
  lemma SheetsReportPrefix(r: Report, wb: Workbook, sheets: seq<(string, Schema)>, i: nat)
    requires i < |sheets| && SheetsReport(r, wb, sheets[..i]).Ok?
    ensures SheetsReport(r, wb, sheets[..i + 1]) == SheetStep(SheetsReport(r, wb, sheets[..i]).value, wb, sheets[i])
  {
    assert sheets[..i + 1][..i] == sheets[..i];
  }

  lemma {:induction false} SheetsReportErrSticky(r: Report, wb: Workbook, sheets: seq<(string, Schema)>, j: nat)
    requires j <= |sheets| && SheetsReport(r, wb, sheets[..j]).Err?
    ensures SheetsReport(r, wb, sheets) == SheetsReport(r, wb, sheets[..j])
  {
    if j < |sheets| {
      assert sheets[..|sheets| - 1][..j] == sheets[..j];
      SheetsReportErrSticky(r, wb, sheets[..|sheets| - 1], j);
    } else {
      assert sheets[..j] == sheets;
    }
  }

  /** `set(frame[column])`, which raises KeyError for a missing column. */
  function ColumnValues(df: Frame, col: string): (r: Result<set<Value>>)
    ensures r.Err? <==> col !in df
    ensures r.Err? ==> r.error == KeyError
    ensures r.Ok? ==> forall v :: v in r.value <==> v in df[col]
  {
    if col in df then Ok(set v | v in df[col]) else Err(KeyError)
  }

  /** Both sheets of a cross check are present and both hold the id column. */
  predicate Linked(wb: Workbook, left: string, right: string, col: string)
  {
    left in wb && right in wb && col in wb[left] && col in wb[right]
  }

  /** The ids a sheet's column holds. */
  function IdsOf(wb: Workbook, sheet: string, col: string): set<Value>
    requires sheet in wb && col in wb[sheet]
  {
    set v | v in wb[sheet][col]
  }

  /** The message for ids of the left sheet that the right sheet lacks. */
  function MissingMessage(transitions: bool, ids: set<Value>): Message
  {
    if transitions then TransitionsMissingAbatement(ids) else AlternativesMissingCosts(ids)
  }

  /** The message for ids of the right sheet that the left sheet lacks. */
  function ExtraMessage(transitions: bool, ids: set<Value>): Message
  {
    if transitions then AbatementWithoutTransitions(ids) else CostsWithoutTechnologies(ids)
  }

  /**
   * One cross check between two sheets present in the workbook: ids on
   * the left without a row on the right are an error, the converse a
   * warning.
   */
  function CheckIdPair(r: Report, wb: Workbook, left: string, right: string, col: string, transitions: bool): (res: Result<Report>)
    ensures res.Err? <==> left in wb && right in wb && !Linked(wb, left, right, col)
    ensures res.Err? ==> res.error == KeyError
    ensures res.Ok? && !Linked(wb, left, right, col) ==> res.value == r
    ensures res.Ok? && Linked(wb, left, right, col) ==>
              var l := IdsOf(wb, left, col);
              var rt := IdsOf(wb, right, col);
              res.value.valid == (r.valid && l <= rt) &&
              res.value.errors == r.errors + (if l <= rt then [] else [MissingMessage(transitions, l - rt)]) &&
              res.value.warnings == r.warnings + (if rt <= l then [] else [ExtraMessage(transitions, rt - l)])
  {
    if left in wb && right in wb then
      match ColumnValues(wb[left], col)
      case Err(e) => Err(e)
      case Ok(l) =>
        match ColumnValues(wb[right], col)
        case Err(e) => Err(e)
        case Ok(rt) =>
          assert l == IdsOf(wb, left, col) && rt == IdsOf(wb, right, col);
          var r1 := if !(l <= rt) then r.WithError(MissingMessage(transitions, l - rt)) else r;
          Ok(if !(rt <= l) then r1.WithWarning(ExtraMessage(transitions, rt - l)) else r1)
    else Ok(r)
  }

  /** A difference is empty exactly when the first set lies within the second. */
  lemma {:induction false} EmptyDifference(a: set<Value>, b: set<Value>)
    ensures a - b == {} <==> a <= b
  {
    if !(a <= b) {
      var x :| x in a && x !in b;
      assert x in a - b;
    }
  }

  lemma {:induction false} LinkedDifferences(wb: Workbook, left: string, right: string, col: string)
    ensures Linked(wb, left, right, col) ==>
              (IdsOf(wb, left, col) - IdsOf(wb, right, col) == {} <==> IdsOf(wb, left, col) <= IdsOf(wb, right, col)) &&
              (IdsOf(wb, right, col) - IdsOf(wb, left, col) == {} <==> IdsOf(wb, right, col) <= IdsOf(wb, left, col))
  {
    if Linked(wb, left, right, col) {
      EmptyDifference(IdsOf(wb, left, col), IdsOf(wb, right, col));
      EmptyDifference(IdsOf(wb, right, col), IdsOf(wb, left, col));
    }
  }

  /**
   * `_validate_cross_references`: transition ids against abatement rows,
   * then alternative technology ids against cost rows; a sheet pair is
   * compared only when both sheets are present, and then a missing id
   * column raises KeyError.
   */
  function CrossReferences(wb: Workbook): (res: Result<Report>)
    ensures res.Err? <==>
              ("TransitionPotentials" in wb && "AbatementPotentials" in wb &&
               !Linked(wb, "TransitionPotentials", "AbatementPotentials", "TransitionID")) ||
              ("AlternativeTechnologies" in wb && "AlternativeCosts" in wb &&
               !Linked(wb, "AlternativeTechnologies", "AlternativeCosts", "TechID"))
    ensures res.Err? ==> res.error == KeyError
    ensures res.Ok? ==> Consistent(res.value)
    ensures res.Ok? ==>
              (res.value.valid <==>
                 (Linked(wb, "TransitionPotentials", "AbatementPotentials", "TransitionID") ==>
                    IdsOf(wb, "TransitionPotentials", "TransitionID") <= IdsOf(wb, "AbatementPotentials", "TransitionID")) &&
                 (Linked(wb, "AlternativeTechnologies", "AlternativeCosts", "TechID") ==>
                    IdsOf(wb, "AlternativeTechnologies", "TechID") <= IdsOf(wb, "AlternativeCosts", "TechID")))
    ensures res.Ok? && Linked(wb, "TransitionPotentials", "AbatementPotentials", "TransitionID") ==>
              var missing := IdsOf(wb, "TransitionPotentials", "TransitionID") - IdsOf(wb, "AbatementPotentials", "TransitionID");
              var extra := IdsOf(wb, "AbatementPotentials", "TransitionID") - IdsOf(wb, "TransitionPotentials", "TransitionID");
              (missing != {} <==> TransitionsMissingAbatement(missing) in res.value.errors) &&
              (extra != {} <==> AbatementWithoutTransitions(extra) in res.value.warnings)
    ensures res.Ok? && Linked(wb, "AlternativeTechnologies", "AlternativeCosts", "TechID") ==>
              var missing := IdsOf(wb, "AlternativeTechnologies", "TechID") - IdsOf(wb, "AlternativeCosts", "TechID");
              var extra := IdsOf(wb, "AlternativeCosts", "TechID") - IdsOf(wb, "AlternativeTechnologies", "TechID");
              (missing != {} <==> AlternativesMissingCosts(missing) in res.value.errors) &&
              (extra != {} <==> CostsWithoutTechnologies(extra) in res.value.warnings)
  {
    LinkedDifferences(wb, "TransitionPotentials", "AbatementPotentials", "TransitionID");
    LinkedDifferences(wb, "AlternativeTechnologies", "AlternativeCosts", "TechID");
    match CheckIdPair(Fresh, wb, "TransitionPotentials", "AbatementPotentials", "TransitionID", true)
    case Err(e) => Err(e)
    case Ok(r) => CheckIdPair(r, wb, "AlternativeTechnologies", "AlternativeCosts", "TechID", false)
  }

  /** `validate_excel_data`: the three schema sheets in order, then the cross checks. */
  function ExcelReport(wb: Workbook): Result<Report>
  {
    match SheetsReport(Fresh, wb, SheetSchemas)
    case Err(e) => Err(e)
    case Ok(r) =>
      match CrossReferences(wb)
      case Err(e) => Err(e)
      case Ok(c) => Ok(r.Absorb(c))
  }

  /**
   * The workbook result: invalid exactly when it holds an error, which is
   * exactly when a present schema sheet or the cross checks are invalid;
   * every absent schema sheet is warned about, and every error of a
   * present sheet is kept.
   */
  lemma {:induction false} ExcelReportMeaning(wb: Workbook)
    requires ExcelReport(wb).Ok?
    ensures Consistent(ExcelReport(wb).value)
    ensures ExcelReport(wb).value.valid <==>
              (forall s :: s in SheetSchemas && s.0 in wb ==> DataframeReport(wb[s.0], s.1, s.0).value.valid) &&
              CrossReferences(wb).value.valid
    ensures forall s :: s in SheetSchemas && s.0 !in wb ==> SheetNotFound(s.0) in ExcelReport(wb).value.warnings
    ensures forall s, m :: s in SheetSchemas && s.0 in wb && m in DataframeReport(wb[s.0], s.1, s.0).value.errors
                           ==> m in ExcelReport(wb).value.errors
    ensures forall m :: m in CrossReferences(wb).value.errors ==> m in ExcelReport(wb).value.errors
  {
    var r := SheetsReport(Fresh, wb, SheetSchemas).value;
    var c := CrossReferences(wb).value;
    SheetsReportMeaning(Fresh, wb, SheetSchemas);
    assert ExcelReport(wb).value == r.Absorb(c);
  }

  /** A workbook failure is either a text cell in a ranged column (TypeError) or a missing id column (KeyError). */
  lemma {:induction false} ExcelReportFailures(wb: Workbook)
    ensures ExcelReport(wb).Err? <==>
              (exists s :: s in SheetSchemas && s.0 in wb && DataframeReport(wb[s.0], s.1, s.0).Err?) ||
              CrossReferences(wb).Err?
    ensures ExcelReport(wb).Err? ==> ExcelReport(wb).error in {TypeError, KeyError}
  {
  }

  /** `validate_excel_data` as the source runs it, on one result object. */
  method ValidateExcelData(wb: Workbook) returns (r: Result<DataValidationResult>)
    ensures r.Ok? <==> ExcelReport(wb).Ok?
    ensures r.Err? ==> r.error == ExcelReport(wb).error
    ensures r.Ok? ==> fresh(r.value) && r.value.Snapshot() == ExcelReport(wb).value
  {
    var overall := new DataValidationResult(true, [], []);
    var sheets := SheetSchemas;
    var i := 0;
    while i < |sheets|
      invariant 0 <= i <= |sheets|
      invariant SheetsReport(Fresh, wb, sheets[..i]) == Ok(overall.Snapshot())
      invariant fresh(overall)
    {
      var (name, schema) := sheets[i];
      SheetsReportPrefix(Fresh, wb, sheets, i);
      if name in wb {
        var res := ValidateDataframe(wb[name], schema, name);
        if res.Err? {
          SheetsReportErrSticky(Fresh, wb, sheets, i + 1);
          return Err(res.error);
        }
        overall.Absorb(res.value.Snapshot());
      } else {
        overall.AddWarning(SheetNotFound(name));
      }
      i := i + 1;
    }
    assert sheets[..i] == sheets;
    var cross := CrossReferences(wb);
    if cross.Err? {
      return Err(cross.error);
    }
    overall.Absorb(cross.value);
    r := Ok(overall);
  }

  // ----------------------------------------------------- validate_scenario

  /** The target of each listed year against the one before it: a warning for a rise of more than 10%. */
  function IncreaseWarnings(targets: map<int, real>, years: seq<int>): seq<Message>
    requires forall i :: 0 <= i < |years| ==> years[i] in targets
  {
    if |years| < 2 then []
    else
      var n := |years|;
      IncreaseWarnings(targets, years[..n - 1]) +
      (if targets[years[n - 1]] > targets[years[n - 2]] * 1.1 then [SignificantIncrease(years[n - 2], years[n - 1])] else [])
  }

  /** The increase warnings name exactly the neighbouring years whose target rises by more than 10%. */
  lemma {:induction false} IncreaseWarningsMembers(targets: map<int, real>, years: seq<int>)
    requires forall i :: 0 <= i < |years| ==> years[i] in targets
    ensures forall m :: m in IncreaseWarnings(targets, years) <==>
              exists i :: 0 <= i < |years| - 1 && targets[years[i + 1]] > targets[years[i]] * 1.1 &&
                          m == SignificantIncrease(years[i], years[i + 1])
  {
    if |years| >= 2 {
      var n := |years|;
      IncreaseWarningsMembers(targets, years[..n - 1]);
      assert forall i :: 0 <= i < n - 1 ==> years[..n - 1][i] == years[i];
    }
  }

  /** Two target years follow each other in sorted order: nothing lies strictly between them. */
  predicate Consecutive(keys: set<int>, a: int, b: int)
  {
    a in keys && b in keys && a < b && forall k :: k in keys ==> !(a < k < b)
  }

  /** In the sorted listing of the target years, neighbours are exactly the consecutive years. */
  lemma {:induction false} NeighboursAreConsecutive(ys: seq<int>, keys: set<int>, a: int, b: int)
    requires StrictlySorted(ys) && forall y :: y in ys <==> y in keys
    ensures (exists i :: 0 <= i < |ys| - 1 && ys[i] == a && ys[i + 1] == b) <==> Consecutive(keys, a, b)
  {
    if exists i :: 0 <= i < |ys| - 1 && ys[i] == a && ys[i + 1] == b {
      var i :| 0 <= i < |ys| - 1 && ys[i] == a && ys[i + 1] == b;
      forall k | k in keys
        ensures !(a < k < b)
      {
        var j :| 0 <= j < |ys| && ys[j] == k;
        if j <= i {
          assert k <= a;
        } else {
          assert k >= b;
        }
      }
    }
    if Consecutive(keys, a, b) {
      var i :| 0 <= i < |ys| && ys[i] == a;
      var j :| 0 <= j < |ys| && ys[j] == b;
      assert i < j;
      assert ys[i + 1] in keys && a < ys[i + 1];
      assert ys[i + 1] >= b;
      assert j == i + 1;
    }
  }

  /** `sum(pb.total_emissions_mt for pb in process_baselines.values())`. */
  function ProcessEmissionsSum(processes: OrderedMaps.Dict<string, Scenario.ProcessBaseline>): real
  {
    if |processes| == 0 then 0.0
    else ProcessEmissionsSum(processes[..|processes| - 1]) + processes[|processes| - 1].1.TotalEmissionsMt()
  }

  /** The intensity loop: an error for a negative intensity, else a warning above 5 t CO2 per t. */
  function IntensityChecks(r: Report, processes: OrderedMaps.Dict<string, Scenario.ProcessBaseline>): Report
  {
    if |processes| == 0 then r
    else
      var (name, pb) := processes[|processes| - 1];
      var r0 := IntensityChecks(r, processes[..|processes| - 1]);
      if pb.emissionIntensity < 0.0 then r0.WithError(NegativeIntensity(name))
      else if pb.emissionIntensity > 5.0 then r0.WithWarning(HighIntensity(name, pb.emissionIntensity))
      else r0
  }

  /**
   * The intensity loop keeps a result consistent, invalidates it exactly
   * when some intensity is negative, and adds exactly one error per
   * negative intensity and one warning per intensity above 5.
   */
  lemma {:induction false} IntensityChecksMeaning(r: Report, processes: OrderedMaps.Dict<string, Scenario.ProcessBaseline>)
    ensures var res := IntensityChecks(r, processes);
            (Consistent(r) ==> Consistent(res)) &&
            res.valid == (r.valid && forall p :: p in processes ==> p.1.emissionIntensity >= 0.0) &&
            (forall m :: m in res.errors <==>
               m in r.errors || exists p :: p in processes && p.1.emissionIntensity < 0.0 && m == NegativeIntensity(p.0)) &&
            (forall m :: m in res.warnings <==>
               m in r.warnings ||
               exists p :: p in processes && p.1.emissionIntensity > 5.0 && m == HighIntensity(p.0, p.1.emissionIntensity))
  {
    if |processes| > 0 {
      var init := processes[..|processes| - 1];
      assert forall p :: p in processes <==> p in init || p == processes[|processes| - 1];
      IntensityChecksMeaning(r, init);
    }
  }

  /** `validate_scenario` on the scenario's baseline, target map and timeline. */
  ghost function ScenarioReport(baseline: Scenario.EmissionsBaseline, targets: map<int, real>, timeline: seq<int>): Report
  {
    ChecksInOrder(baseline, targets, timeline, SortedYears(targets.Keys))
  }

  /** The checks of `validate_scenario`, given the target years in increasing order. */
  function ChecksInOrder(baseline: Scenario.EmissionsBaseline, targets: map<int, real>, timeline: seq<int>,
                         targetYears: seq<int>): Report
    requires forall i :: 0 <= i < |targetYears| ==> targetYears[i] in targets
  {
    var r0 := if baseline.year !in timeline then Fresh.WithWarning(BaselineYearNotInTimeline(baseline.year)) else Fresh;
    var r1 := Report(r0.valid, r0.errors, r0.warnings + IncreaseWarnings(targets, targetYears));
    var total := ProcessEmissionsSum(baseline.processBaselines);
    var diff := Abs(total - baseline.totalEmissionsMt);
    var r2 := if diff > 0.1 then r1.WithError(ProcessSumMismatch(total, baseline.totalEmissionsMt, diff)) else r1;
    IntensityChecks(r2, baseline.processBaselines)
  }

  /**
   * The scenario result is invalid exactly when it holds an error, which is
   * exactly when the process emissions miss the baseline total by more
   * than 0.1 Mt or some intensity is negative; it warns about the baseline
   * year exactly when the timeline lacks it, and about a pair of years
   * exactly when they are consecutive target years and the later target
   * is more than 10% above the earlier.
   */
  lemma {:induction false} ScenarioReportMeaning(baseline: Scenario.EmissionsBaseline, targets: map<int, real>, timeline: seq<int>)
    ensures var r := ScenarioReport(baseline, targets, timeline);
            Consistent(r) &&
            (r.valid <==>
               Abs(ProcessEmissionsSum(baseline.processBaselines) - baseline.totalEmissionsMt) <= 0.1 &&
               forall p :: p in baseline.processBaselines ==> p.1.emissionIntensity >= 0.0) &&
            (BaselineYearNotInTimeline(baseline.year) in r.warnings <==> baseline.year !in timeline) &&
            (forall a, b :: SignificantIncrease(a, b) in r.warnings <==>
                              Consecutive(targets.Keys, a, b) && targets[b] > targets[a] * 1.1)
  {
    var r := ScenarioReport(baseline, targets, timeline);
    var ys := SortedYears(targets.Keys);
    assert r == ChecksInOrder(baseline, targets, timeline, ys);
    var ws := IncreaseWarnings(targets, ys);
    var r0 := if baseline.year !in timeline then Fresh.WithWarning(BaselineYearNotInTimeline(baseline.year)) else Fresh;
    var r1 := Report(r0.valid, r0.errors, r0.warnings + ws);
    var total := ProcessEmissionsSum(baseline.processBaselines);
    var diff := Abs(total - baseline.totalEmissionsMt);
    var r2 := if diff > 0.1 then r1.WithError(ProcessSumMismatch(total, baseline.totalEmissionsMt, diff)) else r1;
    assert r == IntensityChecks(r2, baseline.processBaselines);
    IntensityChecksMeaning(r2, baseline.processBaselines);
    IncreaseWarningsMembers(targets, ys);
    forall a, b
      ensures SignificantIncrease(a, b) in r.warnings <==> Consecutive(targets.Keys, a, b) && targets[b] > targets[a] * 1.1
    {
      NeighboursAreConsecutive(ys, targets.Keys, a, b);
      assert SignificantIncrease(a, b) in r.warnings <==> SignificantIncrease(a, b) in ws;
    }
  }

  /** `validate_scenario` as the source runs it. */
  method ValidateScenario(s: Scenario.EmissionsScenario) returns (result: DataValidationResult)
    ensures fresh(result)
    ensures result.Snapshot() == ScenarioReport(s.baseline, s.targets, s.timeline)
  {
    result := new DataValidationResult(true, [], []);
    var baseline := s.baseline;
    if baseline.year !in s.timeline {
      result.AddWarning(BaselineYearNotInTimeline(baseline.year));
    }
    var targetYears := SortedKeys(s.targets.Keys);
    forall k | 0 <= k < |targetYears|
      ensures targetYears[k] in s.targets
    {
      assert targetYears[k] in targetYears;
    }
    WarnIncreases(result, s, targetYears);
    var total := ProcessEmissionsSum(baseline.processBaselines);
    var diff := Abs(total - baseline.totalEmissionsMt);
    if diff > 0.1 {
      result.AddError(ProcessSumMismatch(total, baseline.totalEmissionsMt, diff));
    }
    CheckIntensities(result, baseline.processBaselines);
    assert result.Snapshot() == ChecksInOrder(baseline, s.targets, s.timeline, targetYears);
    StrictlySortedListingUnique(targetYears, SortedYears(s.targets.Keys));
  }

  /** The loop of `validate_scenario` over neighbouring target years. */
  method WarnIncreases(result: DataValidationResult, s: Scenario.EmissionsScenario, targetYears: seq<int>)
    requires forall k :: 0 <= k < |targetYears| ==> targetYears[k] in s.targets
    modifies result
    ensures result.Snapshot() == old(result.Snapshot()).(warnings := old(result.warnings) + IncreaseWarnings(s.targets, targetYears))
  {
    ghost var start := result.Snapshot();
    var i := 0;
    while i + 1 < |targetYears|
      invariant |targetYears| == 0 || i + 1 <= |targetYears|
      invariant |targetYears| == 0 ==> result.Snapshot() == start
      invariant |targetYears| > 0 ==>
                  result.Snapshot() == start.(warnings := start.warnings + IncreaseWarnings(s.targets, targetYears[..i + 1]))
    {
      assert targetYears[..i + 2][..i + 1] == targetYears[..i + 1];
      if s.GetTargetEmissions(targetYears[i + 1]) > s.GetTargetEmissions(targetYears[i]) * 1.1 {
        result.AddWarning(SignificantIncrease(targetYears[i], targetYears[i + 1]));
      }
      i := i + 1;
    }
    if |targetYears| > 0 {
      assert targetYears[..i + 1] == targetYears;
    } else {
      assert start.warnings + IncreaseWarnings(s.targets, targetYears) == start.warnings;
    }
  }

  /** The loop of `validate_scenario` over the processes' intensities. */
  method CheckIntensities(result: DataValidationResult, processes: OrderedMaps.Dict<string, Scenario.ProcessBaseline>)
    modifies result
    ensures result.Snapshot() == IntensityChecks(old(result.Snapshot()), processes)
  {
    ghost var before := result.Snapshot();
    var j := 0;
    while j < |processes|
      invariant 0 <= j <= |processes|
      invariant result.Snapshot() == IntensityChecks(before, processes[..j])
    {
      var (name, pb) := processes[j];
      assert processes[..j + 1][..j] == processes[..j];
      if pb.emissionIntensity < 0.0 {
        result.AddError(NegativeIntensity(name));
      } else if pb.emissionIntensity > 5.0 {
        result.AddWarning(HighIntensity(name, pb.emissionIntensity));
      }
      j := j + 1;
    }
    assert processes[..j] == processes;
  }

  // ---------------------------------------------------- validate_portfolio

  /** `[tech.tech_id for tech in ...]`. */
  function TechIds(ts: seq<Technology>): (ids: seq<string>)
    ensures |ids| == |ts| && forall i :: 0 <= i < |ts| ==> ids[i] == ts[i].techId
  {
    seq(|ts|, i requires 0 <= i < |ts| => ts[i].techId)
  }

  /** `len(ids) != len(set(ids))`. */
  predicate HasRepeats(ids: seq<string>)
  {
    |set x | x in ids| != |ids|
  }

  /** `set(id for id in ids if ids.count(id) > 1)`: the ids listed more than once. */
  function Repeated(ids: seq<string>): set<string>
  {
    set i, j | 0 <= i < |ids| && 0 <= j < |ids| && i != j && ids[i] == ids[j] :: ids[i]
  }

  /** The length test of the source finds a repeat exactly when some id is listed twice. */
  lemma {:induction false} RepeatsIffDuplicates(ids: seq<string>)
    ensures |set x | x in ids| <= |ids|
    ensures HasRepeats(ids) <==> Repeated(ids) != {}
  {
    if |ids| > 0 {
      var init, last := ids[..|ids| - 1], ids[|ids| - 1];
      RepeatsIffDuplicates(init);
      assert ids == init + [last];
      ListedAfterAppend(init, last);
      if last in init {
        RepeatedLastListedBefore(init, last);
      } else {
        RepeatedLastNew(init, last);
      }
    }
  }

  lemma ListedAfterAppend(init: seq<string>, last: string)
    ensures (set x | x in init + [last]) == (set x | x in init) + {last}
  {
    assert forall x :: x in init + [last] <==> x in init || x == last;
  }

  /** An id appended a second time is repeated. */
  lemma RepeatedLastListedBefore(init: seq<string>, last: string)
    requires last in init
    ensures last in Repeated(init + [last])
  {
    var ids := init + [last];
    var j :| 0 <= j < |init| && init[j] == last;
    assert ids[j] == ids[|init|];
  }

  /** Appending a fresh id repeats nothing new. */
  lemma RepeatedLastNew(init: seq<string>, last: string)
    requires last !in init
    ensures Repeated(init + [last]) == Repeated(init)
  {
    var ids, n := init + [last], |init| + 1;
    forall x | x in Repeated(ids)
      ensures x in Repeated(init)
    {
      var i, j :| 0 <= i < n && 0 <= j < n && i != j && ids[i] == ids[j] && x == ids[i];
      assert forall k :: 0 <= k < n - 1 ==> ids[k] == init[k] && init[k] != last;
      assert i < n - 1 && j < n - 1;
      assert init[i] == init[j];
    }
    forall x | x in Repeated(init)
      ensures x in Repeated(ids)
    {
      var i, j :| 0 <= i < n - 1 && 0 <= j < n - 1 && i != j && init[i] == init[j] && x == init[i];
      assert ids[i] == ids[j];
    }
  }

  /** The LCOA is below zero: `inf < 0` is False. */
  predicate NegativeCost(c: ExtReal)
  {
    c.Finite? && c.v < 0.0
  }

  /** The LCOA is above 50000 USD per t: `inf > 50000` is True. */
  predicate VeryHighCost(c: ExtReal)
  {
    c.Infinite? || c.v > 50000.0
  }

  /** What the per-technology loop collects. */
  datatype Scan = Scan(
    errors: seq<Message>,
    warnings: seq<Message>,
    invalidCosts: seq<string>,
    negativeAbatement: seq<string>,
    unrealisticCosts: seq<(string, ExtReal)>)

  /** One technology of the loop, with its LCOA. */
  function ScanStep(s: Scan, t: Technology, lcoa: ExtReal): Scan
  {
    Scan(
      s.errors + (if t.constraints.maxApplicability > 1.0 then [ApplicabilityAbove100(t.techId)] else []),
      s.warnings + (if t.constraints.rampRatePerYear > 1.0 then [HighRampRate(t.techId, t.constraints.rampRatePerYear)] else []),
      s.invalidCosts + (if NegativeCost(lcoa) then [t.techId] else []),
      s.negativeAbatement + (if t.abatementPotential < 0.0 then [t.techId] else []),
      s.unrealisticCosts + (if !NegativeCost(lcoa) && VeryHighCost(lcoa) then [(t.techId, lcoa)] else []))
  }

  /** The per-technology loop; an LCOA that cannot be computed ends it. */
  function ScanTechnologies(ts: seq<Technology>): Result<Scan>
  {
    if |ts| == 0 then Ok(Scan([], [], [], [], []))
    else
      match ScanTechnologies(ts[..|ts| - 1])
      case Err(e) => Err(e)
      case Ok(s) =>
        var t := ts[|ts| - 1];
        match t.DefaultLcoa()
        case Err(e) => Err(e)
        case Ok(lcoa) => Ok(ScanStep(s, t, lcoa))
  }

  /**
   * The loop fails exactly when some technology's LCOA fails, with that
   * failure; otherwise every list holds exactly the technologies its test
   * picks.
   */
  lemma {:induction false} ScanTechnologiesFails(ts: seq<Technology>)
    ensures ScanTechnologies(ts).Err? <==> exists t :: t in ts && t.DefaultLcoa().Err?
    ensures ScanTechnologies(ts).Err? ==> exists t :: t in ts && t.DefaultLcoa() == Err(ScanTechnologies(ts).error)
  {
    if |ts| > 0 {
      var init := ts[..|ts| - 1];
      assert forall t :: t in ts <==> t in init || t == ts[|ts| - 1];
      ScanTechnologiesFails(init);
    }
  }

  /** The loop's error list is empty exactly when no applicability exceeds 1, and likewise its negative-abatement list. */
  lemma {:induction false} ScanTechnologiesEmptyLists(ts: seq<Technology>)
    requires ScanTechnologies(ts).Ok?
    ensures var s := ScanTechnologies(ts).value;
            (|s.errors| == 0 <==> forall t :: t in ts ==> t.constraints.maxApplicability <= 1.0) &&
            (|s.negativeAbatement| == 0 <==> forall t :: t in ts ==> t.abatementPotential >= 0.0)
  {
    if |ts| > 0 {
      var init := ts[..|ts| - 1];
      assert forall t :: t in ts <==> t in init || t == ts[|ts| - 1];
      ScanTechnologiesEmptyLists(init);
    }
  }

  /** On success every list of the loop holds exactly the technologies its test picks. */
  lemma {:induction false} ScanTechnologiesMeaning(ts: seq<Technology>)
    requires ScanTechnologies(ts).Ok?
    ensures var s := ScanTechnologies(ts).value;
              (forall m :: m in s.errors <==>
                 exists t :: t in ts && t.constraints.maxApplicability > 1.0 && m == ApplicabilityAbove100(t.techId)) &&
              (forall m :: m in s.warnings <==>
                 exists t :: t in ts && t.constraints.rampRatePerYear > 1.0 &&
                             m == HighRampRate(t.techId, t.constraints.rampRatePerYear)) &&
              (forall id :: id in s.invalidCosts <==>
                 exists t :: t in ts && t.techId == id && t.DefaultLcoa().Ok? && NegativeCost(t.DefaultLcoa().value)) &&
              (forall id :: id in s.negativeAbatement <==> exists t :: t in ts && t.techId == id && t.abatementPotential < 0.0) &&
              (forall c :: c in s.unrealisticCosts <==>
                 exists t :: t in ts && t.DefaultLcoa().Ok? && c == (t.techId, t.DefaultLcoa().value) &&
                             !NegativeCost(c.1) && VeryHighCost(c.1))
  {
    if |ts| > 0 {
      var init := ts[..|ts| - 1];
      assert forall t :: t in ts <==> t in init || t == ts[|ts| - 1];
      ScanTechnologiesMeaning(init);
    }
  }

  lemma {:induction false} ScanTechnologiesErrSticky(ts: seq<Technology>, j: nat)
    requires j <= |ts| && ScanTechnologies(ts[..j]).Err?
    ensures ScanTechnologies(ts) == ScanTechnologies(ts[..j])
  {
    if j < |ts| {
      assert ts[..|ts| - 1][..j] == ts[..j];
      ScanTechnologiesErrSticky(ts[..|ts| - 1], j);
    } else {
      assert ts[..j] == ts;
    }
  }

  /** No transition is listed exactly when every transition changes band. */
  lemma {:induction false} SameBandEmpty(ts: seq<Technology>)
    ensures |SameBand(ts)| == 0 <==> forall t :: t in ts ==> t.fromBand != t.toBand
  {
    if |ts| > 0 {
      var init := ts[..|ts| - 1];
      assert forall t :: t in ts <==> t in init || t == ts[|ts| - 1];
      SameBandEmpty(init);
    }
  }

  /** The transitions whose source and target band coincide, in order. */
  function SameBand(ts: seq<Technology>): (ids: seq<string>)
    ensures forall id :: id in ids <==> exists t :: t in ts && t.techId == id && t.fromBand == t.toBand
  {
    if |ts| == 0 then []
    else
      var t := ts[|ts| - 1];
      assert forall u :: u in ts <==> u in ts[..|ts| - 1] || u == t;
      SameBand(ts[..|ts| - 1]) + (if t.fromBand == t.toBand then [t.techId] else [])
  }

  /** After the loop: the three collected lists, then the same-band transitions. */
  function PortfolioTail(r: Report, s: Scan, transitions: seq<Technology>): Report
  {
    var r1 := if |s.invalidCosts| > 0 then r.WithWarning(NegativeLcoa(s.invalidCosts)) else r;
    var r2 := if |s.negativeAbatement| > 0 then r1.WithError(NegativeAbatement(s.negativeAbatement)) else r1;
    var r3 := if |s.unrealisticCosts| > 0 then r2.WithWarning(VeryHighCosts(s.unrealisticCosts)) else r2;
    var same := SameBand(transitions);
    if |same| > 0 then r3.WithError(SameBandTransitions(same)) else r3
  }

  /** `validate_portfolio` on the values of the technology and transition dicts. */
  function PortfolioReport(techs: seq<Technology>, transitions: seq<Technology>): Result<Report>
  {
    var ids := TechIds(techs);
    var r0 := if HasRepeats(ids) then Fresh.WithError(DuplicateIds(Repeated(ids))) else Fresh;
    match ScanTechnologies(techs)
    case Err(e) => Err(e)
    case Ok(s) => Ok(PortfolioTail(Report(r0.valid && |s.errors| == 0, r0.errors + s.errors, s.warnings), s, transitions))
  }

  /**
   * The portfolio result is invalid exactly when it holds an error, which
   * is exactly when an id repeats, an applicability exceeds 1, an
   * abatement potential is negative, or a transition keeps its band; it
   * fails exactly when some technology's LCOA fails.
   */
  lemma {:induction false} PortfolioReportMeaning(techs: seq<Technology>, transitions: seq<Technology>)
    ensures PortfolioReport(techs, transitions).Err? <==> exists t :: t in techs && t.DefaultLcoa().Err?
    ensures PortfolioReport(techs, transitions).Ok? ==>
              var r := PortfolioReport(techs, transitions).value;
              Consistent(r) &&
              (r.valid <==>
                 Repeated(TechIds(techs)) == {} &&
                 (forall t :: t in techs ==> t.constraints.maxApplicability <= 1.0 && t.abatementPotential >= 0.0) &&
                 (forall t :: t in transitions ==> t.fromBand != t.toBand)) &&
              (Repeated(TechIds(techs)) != {} ==> |r.errors| > 0 && r.errors[0] == DuplicateIds(Repeated(TechIds(techs))))
  {
    RepeatsIffDuplicates(TechIds(techs));
    ScanTechnologiesFails(techs);
    SameBandEmpty(transitions);
    if ScanTechnologies(techs).Ok? {
      ScanTechnologiesEmptyLists(techs);
    }
  }

  /** A portfolio keyed by id never reports duplicate ids. */
  lemma {:induction false} KeyedPortfolioHasNoDuplicates(d: OrderedMaps.Dict<string, Technology>)
    requires Portfolio.KeyedById(d)
    ensures Repeated(TechIds(OrderedMaps.Values(d))) == {}
    ensures !HasRepeats(TechIds(OrderedMaps.Values(d)))
  {
    var ids := TechIds(OrderedMaps.Values(d));
    forall i, j | 0 <= i < |ids| && 0 <= j < |ids| && i != j
      ensures ids[i] != ids[j]
    {
      assert d[i] in d && d[j] in d;
      assert ids[i] == d[i].0 && ids[j] == d[j].0;
      if i < j {
        assert d[i].0 != d[j].0;
      } else {
        assert d[j].0 != d[i].0;
      }
    }
    RepeatsIffDuplicates(ids);
  }

  /** The transition loop of `validate_portfolio`: the ids of the transitions that stay in their band. */
  method CollectSameBand(transitions: seq<Technology>) returns (invalidTransitions: seq<string>)
    ensures invalidTransitions == SameBand(transitions)
  {
    invalidTransitions := [];
    var j := 0;
    while j < |transitions|
      invariant 0 <= j <= |transitions|
      invariant invalidTransitions == SameBand(transitions[..j])
    {
      assert transitions[..j + 1][..j] == transitions[..j];
      if transitions[j].fromBand == transitions[j].toBand {
        invalidTransitions := invalidTransitions + [transitions[j].techId];
      }
      j := j + 1;
    }
    assert transitions[..j] == transitions;
  }

  /** `validate_portfolio` as the source runs it. */
  method ValidatePortfolio(p: Portfolio.TechPortfolio) returns (r: Result<DataValidationResult>)
    ensures r.Ok? <==> PortfolioReport(OrderedMaps.Values(p.technologies), OrderedMaps.Values(p.transitions)).Ok?
    ensures r.Err? ==> r.error == PortfolioReport(OrderedMaps.Values(p.technologies), OrderedMaps.Values(p.transitions)).error
    ensures r.Ok? ==> fresh(r.value) &&
                      r.value.Snapshot() == PortfolioReport(OrderedMaps.Values(p.technologies), OrderedMaps.Values(p.transitions)).value
  {
    var result := new DataValidationResult(true, [], []);
    var techs := OrderedMaps.Values(p.technologies);
    var ids := TechIds(techs);
    if HasRepeats(ids) {
      result.AddError(DuplicateIds(Repeated(ids)));
    }
    ghost var r0 := result.Snapshot();
    var lists := CheckTechnologies(result, techs);
    if lists.Err? {
      return Err(lists.error);
    }
    ghost var scan := ScanTechnologies(techs).value;
    ghost var afterScan := Report(r0.valid && |scan.errors| == 0, r0.errors + scan.errors, scan.warnings);
    assert result.Snapshot() == afterScan;
    var (invalidCosts, negativeAbatement, unrealisticCosts) := lists.value;
    if |invalidCosts| > 0 {
      result.AddWarning(NegativeLcoa(invalidCosts));
    }
    if |negativeAbatement| > 0 {
      result.AddError(NegativeAbatement(negativeAbatement));
    }
    if |unrealisticCosts| > 0 {
      result.AddWarning(VeryHighCosts(unrealisticCosts));
    }
    var transitions := OrderedMaps.Values(p.transitions);
    var invalidTransitions := CollectSameBand(transitions);
    if |invalidTransitions| > 0 {
      result.AddError(SameBandTransitions(invalidTransitions));
    }
    assert result.Snapshot() == PortfolioTail(afterScan, scan, transitions);
    r := Ok(result);
  }

  /**
   * The per-technology loop of `validate_portfolio`: the constraint messages
   * go straight into the result, the cost and abatement findings into the
   * three returned lists.
   */
  method CheckTechnologies(result: DataValidationResult, techs: seq<Technology>)
    returns (lists: Result<(seq<string>, seq<string>, seq<(string, ExtReal)>)>)
    modifies result
    ensures lists.Ok? <==> ScanTechnologies(techs).Ok?
    ensures lists.Err? ==> lists.error == ScanTechnologies(techs).error
    ensures lists.Ok? ==>
              var s := ScanTechnologies(techs).value;
              lists.value == (s.invalidCosts, s.negativeAbatement, s.unrealisticCosts) &&
              result.Snapshot() == Report(old(result.valid) && |s.errors| == 0, old(result.errors) + s.errors,
                                          old(result.warnings) + s.warnings)
  {
    ghost var r0 := result.Snapshot();
    var invalidCosts: seq<string> := [];
    var negativeAbatement: seq<string> := [];
    var unrealisticCosts: seq<(string, ExtReal)> := [];
    ghost var scan := Scan([], [], [], [], []);
    var i := 0;
    while i < |techs|
      invariant 0 <= i <= |techs|
      invariant ScanTechnologies(techs[..i]) == Ok(scan)
      invariant result.Snapshot() == Report(r0.valid && |scan.errors| == 0, r0.errors + scan.errors, r0.warnings + scan.warnings)
      invariant invalidCosts == scan.invalidCosts && negativeAbatement == scan.negativeAbatement
      invariant unrealisticCosts == scan.unrealisticCosts
    {
      var tech := techs[i];
      assert techs[..i + 1][..i] == techs[..i];
      var lcoaResult := tech.DefaultLcoa();
      if lcoaResult.Err? {
        ScanTechnologiesErrSticky(techs, i + 1);
        return Err(lcoaResult.error);
      }
      var lcoa := lcoaResult.value;
      assert ScanTechnologies(techs[..i + 1]) == Ok(ScanStep(scan, tech, lcoa));
      invalidCosts, negativeAbatement, unrealisticCosts :=
        CheckTechnology(result, tech, lcoa, r0, scan, invalidCosts, negativeAbatement, unrealisticCosts);
      scan := ScanStep(scan, tech, lcoa);
      i := i + 1;
    }
    assert techs[..i] == techs;
    lists := Ok((invalidCosts, negativeAbatement, unrealisticCosts));
  }

  /** One pass of the per-technology loop, given the technology's LCOA. */
  method CheckTechnology(result: DataValidationResult, tech: Technology, lcoa: ExtReal, ghost r0: Report, ghost scan: Scan,
                         invalidCosts: seq<string>, negativeAbatement: seq<string>, unrealisticCosts: seq<(string, ExtReal)>)
    returns (invalidCosts': seq<string>, negativeAbatement': seq<string>, unrealisticCosts': seq<(string, ExtReal)>)
    requires result.Snapshot() == Report(r0.valid && |scan.errors| == 0, r0.errors + scan.errors, r0.warnings + scan.warnings)
    requires invalidCosts == scan.invalidCosts && negativeAbatement == scan.negativeAbatement
    requires unrealisticCosts == scan.unrealisticCosts
    modifies result
    ensures var next := ScanStep(scan, tech, lcoa);
            result.Snapshot() == Report(r0.valid && |next.errors| == 0, r0.errors + next.errors, r0.warnings + next.warnings) &&
            invalidCosts' == next.invalidCosts && negativeAbatement' == next.negativeAbatement &&
            unrealisticCosts' == next.unrealisticCosts
  {
    invalidCosts', negativeAbatement', unrealisticCosts' := invalidCosts, negativeAbatement, unrealisticCosts;
    if lcoa.Finite? && lcoa.v < 0.0 {
      invalidCosts' := invalidCosts' + [tech.techId];
    } else if lcoa.Infinite? || lcoa.v > 50000.0 {
      unrealisticCosts' := unrealisticCosts' + [(tech.techId, lcoa)];
    }
    if tech.abatementPotential < 0.0 {
      negativeAbatement' := negativeAbatement' + [tech.techId];
    }
    CheckConstraints(result, tech);
  }

  /** The constraint checks of one technology: an error for applicability above 1, a warning for a ramp rate above 1. */
  method CheckConstraints(result: DataValidationResult, tech: Technology)
    modifies result
    ensures var step := ScanStep(Scan([], [], [], [], []), tech, Finite(0.0));
            result.Snapshot() == Report(old(result.valid) && |step.errors| == 0, old(result.errors) + step.errors,
                                        old(result.warnings) + step.warnings)
  {
    if tech.constraints.maxApplicability > 1.0 {
      result.AddError(ApplicabilityAbove100(tech.techId));
    }
    if tech.constraints.rampRatePerYear > 1.0 {
      result.AddWarning(HighRampRate(tech.techId, tech.constraints.rampRatePerYear));
    }
  }

  // ------------------------------------------------- validate_model_inputs

  /** The required abatement of each listed year. */
  function RequiredAbatements(s: Scenario.EmissionsScenario, years: seq<int>): (rs: seq<real>)
    reads s
    ensures |rs| == |years| && forall i :: 0 <= i < |years| ==> rs[i] == s.GetRequiredAbatement(years[i]) && rs[i] >= 0.0
  {
    seq(|years|, i reads s requires 0 <= i < |years| => s.GetRequiredAbatement(years[i]))
  }

  /** The processes some technology addresses, without the generic "All". */
  function PortfolioProcesses(ts: seq<Technology>): (ps: set<string>)
    ensures forall x :: x in ps <==> x != "All" && exists t :: t in ts && t.processType == x
  {
    (set t | t in ts :: t.processType) - {"All"}
  }

  /** Baseline processes that no technology addresses. */
  function Uncovered(processes: OrderedMaps.Dict<string, Scenario.ProcessBaseline>, ts: seq<Technology>): (u: set<string>)
    ensures forall x :: x in u <==>
              OrderedMaps.HasKey(processes, x) && (x == "All" || forall t :: t in ts ==> t.processType != x)
  {
    (set k | k in OrderedMaps.Keys(processes)) - PortfolioProcesses(ts)
  }

  /**
   * The feasibility check: an error when the largest requirement exceeds
   * the potential, else a warning when it exceeds 80% of it. The warning
   * divides by the potential, which is then positive, and carries a share
   * above 80 and at most 100 percent.
   */
  function FeasibilityCheck(r: Report, maxRequired: real, potential: real): (res: Report)
    requires maxRequired >= 0.0
    ensures Consistent(r) ==> Consistent(res)
    ensures res.valid == (r.valid && maxRequired <= potential)
    ensures maxRequired > potential ==> res.errors == r.errors + [Infeasible(maxRequired, potential)] && res.warnings == r.warnings
    ensures maxRequired <= potential ==> res.errors == r.errors
    ensures maxRequired <= potential * 0.8 ==> res == r
    ensures potential * 0.8 < maxRequired <= potential ==>
              potential > 0.0 && |res.warnings| == |r.warnings| + 1 && res.warnings[..|r.warnings|] == r.warnings &&
              var w := res.warnings[|r.warnings|];
              w.Challenging? && 80.0 < w.percentOfPotential <= 100.0
  {
    if maxRequired > potential then r.WithError(Infeasible(maxRequired, potential))
    else if maxRequired > potential * 0.8 then
      var share := maxRequired / potential * 100.0;
      ShareBounds(maxRequired, potential);
      r.WithWarning(Challenging(share))
    else r
  }

  /** A requirement above 80% of a potential it does not exceed is a share in (80, 100] of a positive potential. */
  lemma {:induction false} ShareBounds(x: real, potential: real)
    requires x >= 0.0 && potential * 0.8 < x <= potential
    ensures potential > 0.0 && 80.0 < x / potential * 100.0 <= 100.0
  {
    var q := x / potential;
    assert q * potential == x;
    assert (q - 0.8) * potential == x - 0.8 * potential;
    assert (1.0 - q) * potential == potential - x;
    var d := (x - 0.8 * potential) / potential;
    assert d > 0.0 && d * potential == x - 0.8 * potential;
    assert (q - d - 0.8) * potential == 0.0;
    var a := q - d - 0.8;
    assert a == (a * potential) / potential;
    assert a == 0.0;
  }

  /** `validate_model_inputs`: both results merged, then feasibility and coverage. */
  ghost function ModelInputsReport(s: Scenario.EmissionsScenario, p: Portfolio.TechPortfolio): Result<Report>
    reads s, p
  {
    var sr := ScenarioReport(s.baseline, s.targets, s.timeline);
    match PortfolioReport(OrderedMaps.Values(p.technologies), OrderedMaps.Values(p.transitions))
    case Err(e) => Err(e)
    case Ok(pr) =>
      if |s.timeline| == 0 then Err(ValueError)
      else
        var combined := Report(sr.valid && pr.valid, sr.errors + pr.errors, sr.warnings + pr.warnings);
        Ok(FeasibilityAndCoverage(combined, s, p))
  }

  /** The feasibility check and then the process-coverage warning, on the merged result. */
  ghost function FeasibilityAndCoverage(r: Report, s: Scenario.EmissionsScenario, p: Portfolio.TechPortfolio): Report
    reads s, p
    requires |s.timeline| > 0
  {
    var potential := Portfolio.TotalPotential(OrderedMaps.Values(p.transitions), OrderedMaps.Values(p.alternatives),
                                              s.baseline.processBaselines);
    var r1 := FeasibilityCheck(r, MaxRequired(s), potential);
    var uncovered := Uncovered(s.baseline.processBaselines, OrderedMaps.Values(p.technologies));
    if uncovered != {} then r1.WithWarning(UncoveredProcesses(uncovered)) else r1
  }

  /** `max(get_required_abatement(year) for year in timeline)`, for a non-empty timeline. */
  function MaxRequired(s: Scenario.EmissionsScenario): (m: real)
    reads s
    requires |s.timeline| > 0
    ensures m >= 0.0
    ensures exists y :: y in s.timeline && m == s.GetRequiredAbatement(y)
    ensures forall y :: y in s.timeline ==> s.GetRequiredAbatement(y) <= m
  {
    var rs := RequiredAbatements(s, s.timeline);
    var m := MaxOf(rs);
    var i :| 0 <= i < |rs| && rs[i] == m;
    assert s.timeline[i] in s.timeline;
    m
  }

  /**
   * The merged result is invalid exactly when it holds an error, which is
   * exactly when the scenario or the portfolio is invalid or the largest
   * requirement exceeds the potential; it keeps every message of both, and
   * it ends with the coverage warning exactly when a baseline process has
   * no technology. It fails when the portfolio's costs fail, and otherwise
   * with ValueError exactly when the timeline is empty.
   */
  lemma {:induction false} ModelInputsMeaning(s: Scenario.EmissionsScenario, p: Portfolio.TechPortfolio)
    ensures var pr := PortfolioReport(OrderedMaps.Values(p.technologies), OrderedMaps.Values(p.transitions));
            (ModelInputsReport(s, p).Err? <==> pr.Err? || |s.timeline| == 0) &&
            (pr.Ok? && |s.timeline| == 0 ==> ModelInputsReport(s, p) == Err(ValueError))
    ensures ModelInputsReport(s, p).Ok? ==>
              var r := ModelInputsReport(s, p).value;
              var sr := ScenarioReport(s.baseline, s.targets, s.timeline);
              var pr := PortfolioReport(OrderedMaps.Values(p.technologies), OrderedMaps.Values(p.transitions)).value;
              var potential := Portfolio.TotalPotential(OrderedMaps.Values(p.transitions), OrderedMaps.Values(p.alternatives),
                                                        s.baseline.processBaselines);
              var uncovered := Uncovered(s.baseline.processBaselines, OrderedMaps.Values(p.technologies));
              Consistent(r) &&
              (r.valid <==> sr.valid && pr.valid && MaxRequired(s) <= potential) &&
              sr.errors + pr.errors <= r.errors &&
              sr.warnings + pr.warnings <= r.warnings &&
              (uncovered != {} ==> r.warnings[|r.warnings| - 1] == UncoveredProcesses(uncovered))
  {
    var techs := OrderedMaps.Values(p.technologies);
    var transitions := OrderedMaps.Values(p.transitions);
    PortfolioReportMeaning(techs, transitions);
    ScenarioReportMeaning(s.baseline, s.targets, s.timeline);
    if ModelInputsReport(s, p).Ok? {
      var sr := ScenarioReport(s.baseline, s.targets, s.timeline);
      var pr := PortfolioReport(techs, transitions).value;
      var combined := Report(sr.valid && pr.valid, sr.errors + pr.errors, sr.warnings + pr.warnings);
      var potential := Portfolio.TotalPotential(OrderedMaps.Values(p.transitions), OrderedMaps.Values(p.alternatives),
                                                s.baseline.processBaselines);
      var r1 := FeasibilityCheck(combined, MaxRequired(s), potential);
      assert combined.warnings <= r1.warnings;
    }
  }

  /** `validate_model_inputs` as the source runs it. */
  method ValidateModelInputs(s: Scenario.EmissionsScenario, p: Portfolio.TechPortfolio) returns (r: Result<DataValidationResult>)
    ensures r.Ok? <==> ModelInputsReport(s, p).Ok?
    ensures r.Err? ==> r.error == ModelInputsReport(s, p).error
    ensures r.Ok? ==> fresh(r.value) && r.value.Snapshot() == ModelInputsReport(s, p).value
  {
    var result := new DataValidationResult(true, [], []);
    var scenarioResult := ValidateScenario(s);
    var portfolioResult := ValidatePortfolio(p);
    if portfolioResult.Err? {
      return Err(portfolioResult.error);
    }
    var sr := scenarioResult.Snapshot();
    var pr := portfolioResult.value.Snapshot();
    var combined := Report(sr.valid && pr.valid, sr.errors + pr.errors, sr.warnings + pr.warnings);
    result.Absorb(combined);
    assert result.Snapshot() == combined;
    if |s.timeline| == 0 {
      // `max` of an empty timeline
      return Err(ValueError);
    }
    CheckFeasibilityAndCoverage(result, s, p);
    r := Ok(result);
  }

  /** The last two checks of `validate_model_inputs`, on its result object. */
  method CheckFeasibilityAndCoverage(result: DataValidationResult, s: Scenario.EmissionsScenario, p: Portfolio.TechPortfolio)
    requires |s.timeline| > 0
    modifies result
    ensures result.Snapshot() == FeasibilityAndCoverage(old(result.Snapshot()), s, p)
  {
    var potential := p.CalculateTotalAbatementPotential(s.baseline);
    var maxRequired := MaxRequired(s);
    CheckFeasibility(result, maxRequired, potential);
    var uncovered := Uncovered(s.baseline.processBaselines, OrderedMaps.Values(p.technologies));
    if uncovered != {} {
      result.AddWarning(UncoveredProcesses(uncovered));
    }
  }

  /** The feasibility branch of `validate_model_inputs`. */
  method CheckFeasibility(result: DataValidationResult, maxRequired: real, potential: real)
    requires maxRequired >= 0.0
    modifies result
    ensures result.Snapshot() == FeasibilityCheck(old(result.Snapshot()), maxRequired, potential)
  {
    if maxRequired > potential {
      result.AddError(Infeasible(maxRequired, potential));
    } else if maxRequired > potential * 0.8 {
      result.AddWarning(Challenging(maxRequired / potential * 100.0));
    }
  }
}
