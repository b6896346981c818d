/**
 * The corrected capacity-and-production LP builder: the per-technology
 * parameters gated by the start year, the maximum deployable capacity, the
 * capital recovery factor and discount factors, the seven constraint
 * families and the process mass-balance ceilings as predicates over a
 * candidate decision, and the discounted cost objective. Nothing is solved.
 */
module ModelBuilderCorrected {

  import opened Wrappers
  import opened Reals
  import opened Vintage
  import opened Technology
  import Finance
  import Ints
  import OrderedMaps
  import Scenario
  import Portfolio
  import opened TechTables

  // ------------------------------------------------------------- parameters

  /**
   * The four parameters of one (technology, year) cell: capex in million USD
   * per kt of capacity, opex in USD per t, abatement in t CO2 per t and the
   * maximum deployable capacity in kt.
   */
  datatype Cell = Cell(capexMusdPerKt: real, opexUsdPerT: real, abatementPerT: real, maxCapacityKt: real)

  /** The cell of a year before the technology's start. */
  const Unavailable := Cell(0.0, 0.0, 0.0, 0.0)

  /** The cell of technology `t` in `year`: all zero before the start year. */
  function CellOf(b: Scenario.EmissionsBaseline, t: Technology, year: int): (r: Result<Cell>)
    ensures year < t.constraints.startYear ==> r == Ok(Unavailable)
    ensures r.Err? ==> r.error == AttributeError
    ensures year >= t.constraints.startYear && r.Ok? ==>
              r.value.maxCapacityKt == Portfolio.ApplicableCapacity(b, t) * t.constraints.maxApplicability
  {
    if year >= t.constraints.startYear then
      match MaxCapacity(b, t)
      case Err(e) => Err(e)
      case Ok(c) => Ok(Cell(t.costStructure.capexUsdPerKt / 1000000.0, t.costStructure.opexDeltaUsdPerT,
                            t.abatementPotential, c))
    else Ok(Unavailable)
  }

  /** The cell function `_add_technology_parameters` applies to every technology and year. */
  function Cells(b: Scenario.EmissionsBaseline): (Technology, int) -> Result<Cell>
  {
    (t, y) => CellOf(b, t, y)
  }

  /** `discount_rate / (1 - (1 + discount_rate) ** -lifetime)` for a positive rate, else `1.0 / lifetime`. */
  function CapitalRecovery(rate: real, life: int): (r: Result<real>)
    ensures r.Err? <==> life == 0
    ensures r.Err? ==> r.error == ZeroDivisionError
  {
    if rate > 0.0 then
      if life == 0 then
        assert Finance.Crf(rate, 0).Err? by { Finance.PowOne(0); }
        Finance.Crf(rate, life)
      else
        CrfDefinedAwayFromZero(rate, life);
        Finance.Crf(rate, life)
    else if life == 0 then Err(ZeroDivisionError)
    else Ok(1.0 / life as real)
  }

  /** For a positive rate and a non-zero lifetime the annuity denominator is never zero. */
  lemma {:induction false} CrfDefinedAwayFromZero(rate: real, life: int)
    requires rate > 0.0 && life != 0
    ensures Finance.Crf(rate, life).Ok?
  {
    if life > 0 {
      var _ := Finance.CrfPositiveRate(rate, life);
    } else {
      PowGreaterThanOne(1.0 + rate, -life);
      assert IntPow(1.0 + rate, -life) == Some(Pow(1.0 + rate, -life));
    }
  }

  /**
   * The capital recovery factor repays exactly one unit of capital over the
   * lifetime: with a positive rate, CRF times the annuity factor is 1 and
   * CRF exceeds straight-line 1/L; at a zero or negative rate it is 1/L.
   */
  lemma {:induction false} CapitalRecoveryRepays(rate: real, life: int)
    requires life >= 1
    ensures CapitalRecovery(rate, life).Ok?
    ensures rate > 0.0 ==> CapitalRecovery(rate, life).value * Finance.AnnuityFactor(rate, life) == 1.0 &&
                           CapitalRecovery(rate, life).value >= 1.0 / life as real
    ensures rate <= 0.0 ==> CapitalRecovery(rate, life).value * life as real == 1.0
  {
    if rate > 0.0 {
      Finance.CrfAnnuity(rate, life);
    }
  }

  /** `crf_data`: the factor of every technology, or ZeroDivisionError for a zero lifetime. */
  predicate CrfsDefined(techs: Techs)
  {
    forall id :: id in OrderedMaps.Keys(techs) ==> TechAt(techs, id).constraints.lifetimeYears != 0
  }

  function CrfTable(techs: Techs, rate: real): (crf: map<string, real>)
    requires CrfsDefined(techs)
    ensures forall id :: id in crf <==> OrderedMaps.HasKey(techs, id)
    ensures forall id :: id in crf ==> Ok(crf[id]) == CapitalRecovery(rate, TechAt(techs, id).constraints.lifetimeYears)
  {
    map id | id in OrderedMaps.Keys(techs) :: CapitalRecovery(rate, TechAt(techs, id).constraints.lifetimeYears).value
  }

  // ------------------------------------------------------------ the model

  datatype CorrectedModel = CorrectedModel(
    years: seq<int>,
    techs: seq<string>,
    processes: seq<string>,
    cells: map<(string, int), Cell>,
    life: map<string, int>,
    ramp: map<string, real>,
    crf: map<string, real>,
    processOf: map<string, string>,
    req: map<int, real>,
    df: map<int, real>,
    baselineProductionKt: map<string, real>,
    firstYear: int,
    allowSlack: bool,
    slackPenalty: real)

  predicate WellFormed(m: CorrectedModel)
  {
    (forall i, t :: i in m.techs && t in m.years ==> (i, t) in m.cells) &&
    (forall i :: i in m.techs ==> i in m.life && i in m.ramp && i in m.crf && i in m.processOf) &&
    (forall t :: t in m.years ==> t in m.req && t in m.df) &&
    (forall p :: p in m.processes ==> p in m.baselineProductionKt) &&
    m.firstYear in m.years && (forall t :: t in m.years ==> m.firstYear <= t)
  }

  /** Everything but the cells: requirements, discount and recovery factors, scalars and processes. */
  function Assemble(scenario: Scenario.EmissionsScenario, techs: Techs,
                    cells: map<(string, int), Cell>, allowSlack: bool, slackPenalty: real,
                    discountRate: real): (r: Result<CorrectedModel>)
    reads scenario
  {
    var years := scenario.timeline;
    if |years| == 0 then Err(ValueError)
    else
      var base := Ints.MinInt(years);
      match Finance.DiscountFactors(years, discountRate, base)
      case Err(e) => Err(e)
      case Ok(df) =>
        if !CrfsDefined(techs) then Err(ZeroDivisionError)
        else
          var keys := OrderedMaps.Keys(techs);
          var pbs := scenario.baseline.processBaselines;
          Ok(CorrectedModel(
            years, keys, OrderedMaps.Keys(pbs), cells,
            map id | id in keys :: TechAt(techs, id).constraints.lifetimeYears,
            map id | id in keys :: TechAt(techs, id).constraints.rampRatePerYear,
            CrfTable(techs, discountRate),
            map id | id in keys :: TechAt(techs, id).processType,
            map y | y in years :: scenario.GetRequiredAbatement(y) * 1000000.0,
            df,
            map p | p in OrderedMaps.Keys(pbs) :: OrderedMaps.Get(pbs, p).value.productionKt,
            base, allowSlack, slackPenalty))
  }

  /**
   * `build_model`'s parameters (the scenario keeps its timeline sorted, so
   * `sorted` leaves it as it is). The failures in the order they are met:
   * AttributeError from a cell, ValueError from `min` of an empty timeline,
   * ZeroDivisionError from a discount factor or from a zero lifetime.
   */
  function Build(scenario: Scenario.EmissionsScenario, techs: Techs,
                 allowSlack: bool, slackPenalty: real, discountRate: real): (r: Result<CorrectedModel>)
    reads scenario
    ensures !CellsDefined(Cells(scenario.baseline), techs, scenario.timeline) ==> r == Err(AttributeError)
    ensures CellsDefined(Cells(scenario.baseline), techs, scenario.timeline) && |scenario.timeline| == 0 ==> r == Err(ValueError)
    ensures r.Ok? <==> CellsDefined(Cells(scenario.baseline), techs, scenario.timeline) && |scenario.timeline| > 0 &&
                       CrfsDefined(techs) &&
                       (1.0 + discountRate != 0.0 || forall y :: y in scenario.timeline ==> y == Ints.MinInt(scenario.timeline))
    ensures r.Ok? ==> WellFormed(r.value) && r.value.allowSlack == allowSlack && r.value.years == scenario.timeline
    ensures r.Ok? ==> forall i :: i in r.value.techs <==> OrderedMaps.HasKey(techs, i)
  {
    if !CellsDefined(Cells(scenario.baseline), techs, scenario.timeline) then Err(AttributeError)
    else Assemble(scenario, techs, CellTable(Cells(scenario.baseline), techs, scenario.timeline),
                  allowSlack, slackPenalty, discountRate)
  }

  // --------------------------------------------------------- the decision

  /** The variables; `shortfall` is read only when slack is allowed. */
  datatype Decision = Decision(install: Table, total: Table, production: Table, abatement: Table,
                               shortfall: map<int, real>)

  predicate Defined(m: CorrectedModel, d: Decision)
  {
    Covers(d.install, m.techs, m.years) && Covers(d.total, m.techs, m.years) &&
    Covers(d.production, m.techs, m.years) && Covers(d.abatement, m.techs, m.years) &&
    (forall t :: t in m.years ==> t in d.shortfall)
  }

  /** The variables are `NonNegativeReals`. */
  predicate NonNegative(m: CorrectedModel, d: Decision)
    requires Defined(m, d)
  {
    (forall i, t :: i in m.techs && t in m.years ==>
       d.install[(i, t)] >= 0.0 && d.total[(i, t)] >= 0.0 &&
       d.production[(i, t)] >= 0.0 && d.abatement[(i, t)] >= 0.0) &&
    (forall t :: t in m.years ==> d.shortfall[t] >= 0.0)
  }

  /** Capacity evolution: total capacity is the sum of the installations still within their lifetime. */
  predicate CapacityEvolution(m: CorrectedModel, d: Decision)
    requires WellFormed(m) && Defined(m, d)
  {
    forall i, t :: i in m.techs && t in m.years ==> d.total[(i, t)] == Stock(d.install, i, m.years, t, m.life[i])
  }

  /** Production never exceeds the available capacity. */
  predicate ProductionLimit(m: CorrectedModel, d: Decision)
    requires WellFormed(m) && Defined(m, d)
  {
    forall i, t :: i in m.techs && t in m.years ==> d.production[(i, t)] <= d.total[(i, t)]
  }

  /** A year's installation never exceeds the maximum capacity. */
  predicate CapacityLimit(m: CorrectedModel, d: Decision)
    requires WellFormed(m) && Defined(m, d)
  {
    forall i, t :: i in m.techs && t in m.years ==> d.install[(i, t)] <= m.cells[(i, t)].maxCapacityKt
  }

  /** From the second timeline year on, a year's installation is at most the ramp share of the maximum. */
  predicate RampLimit(m: CorrectedModel, d: Decision)
    requires WellFormed(m) && Defined(m, d)
  {
    forall i, t :: i in m.techs && t in m.years && t != m.firstYear ==>
      d.install[(i, t)] <= m.cells[(i, t)].maxCapacityKt * m.ramp[i]
  }

  /** Abatement (t CO2) is production (kt) times the abatement per tonne times 1000. */
  predicate AbatementCalc(m: CorrectedModel, d: Decision)
    requires WellFormed(m) && Defined(m, d)
  {
    forall i, t :: i in m.techs && t in m.years ==>
      d.abatement[(i, t)] == d.production[(i, t)] * m.cells[(i, t)].abatementPerT * 1000.0
  }

  function YearAbatement(m: CorrectedModel, d: Decision, t: int): real
    requires Defined(m, d) && t in m.years
  {
    Sum(Row(d.abatement, m.techs, t))
  }

  /** The year's abatement, plus the shortfall (t CO2) when slack is allowed, covers the requirement. */
  predicate TargetRule(m: CorrectedModel, d: Decision)
    requires WellFormed(m) && Defined(m, d)
  {
    forall t :: t in m.years ==>
      (if m.allowSlack then YearAbatement(m, d, t) + d.shortfall[t] else YearAbatement(m, d, t)) >= m.req[t]
  }

  /** The technologies of process `p`, in model order. */
  function TechsOf(m: CorrectedModel, techs: seq<string>, p: string): (r: seq<string>)
    requires forall i :: i in techs ==> i in m.processOf
    ensures forall i :: i in r <==> i in techs && m.processOf[i] == p
  {
    if |techs| == 0 then []
    else
      var i := techs[|techs| - 1];
      assert i in techs;
      var rest := TechsOf(m, techs[..|techs| - 1], p);
      assert forall x :: x in techs <==> x in techs[..|techs| - 1] || x == i;
      if m.processOf[i] == p then rest + [i] else rest
  }

  /** Process balance: a process's production over all its technologies stays within its baseline. */
  predicate ProcessBalance(m: CorrectedModel, d: Decision)
    requires WellFormed(m) && Defined(m, d)
  {
    forall p, t :: p in m.processes && t in m.years ==>
      Sum(Row(d.production, TechsOf(m, m.techs, p), t)) <= m.baselineProductionKt[p]
  }

  predicate Feasible(m: CorrectedModel, d: Decision)
  {
    WellFormed(m) && Defined(m, d) && NonNegative(m, d) &&
    CapacityEvolution(m, d) && ProductionLimit(m, d) && CapacityLimit(m, d) && RampLimit(m, d) &&
    AbatementCalc(m, d) && TargetRule(m, d) && ProcessBalance(m, d)
  }

  // ------------------------------------------------------------- lemmas

  /**
   * The built model's cells: before the technology's start a cell is all
   * zero; from the start on it carries capex in million USD, the opex, the
   * abatement and the applicable capacity times the maximum applicability.
   */
  lemma {:induction false} BuildCells(scenario: Scenario.EmissionsScenario, techs: Techs,
                   allowSlack: bool, slackPenalty: real, discountRate: real, id: string, y: int)
    requires Build(scenario, techs, allowSlack, slackPenalty, discountRate).Ok?
    requires OrderedMaps.HasKey(techs, id) && y in scenario.timeline
    ensures var m := Build(scenario, techs, allowSlack, slackPenalty, discountRate).value;
            var t := TechAt(techs, id);
            (y < t.constraints.startYear ==> m.cells[(id, y)] == Unavailable) &&
            (y >= t.constraints.startYear ==>
               m.cells[(id, y)].capexMusdPerKt == t.costStructure.capexUsdPerKt / 1000000.0 &&
               m.cells[(id, y)].opexUsdPerT == t.costStructure.opexDeltaUsdPerT &&
               m.cells[(id, y)].abatementPerT == t.abatementPotential &&
               m.cells[(id, y)].maxCapacityKt ==
                 Portfolio.ApplicableCapacity(scenario.baseline, t) * t.constraints.maxApplicability)
  {
    BuildCellIsCellOf(scenario, techs, allowSlack, slackPenalty, discountRate, id, y);
  }

  lemma {:induction false} BuildCellIsCellOf(scenario: Scenario.EmissionsScenario, techs: Techs,
                          allowSlack: bool, slackPenalty: real, discountRate: real, id: string, y: int)
    requires Build(scenario, techs, allowSlack, slackPenalty, discountRate).Ok?
    requires OrderedMaps.HasKey(techs, id) && y in scenario.timeline
    ensures CellOf(scenario.baseline, TechAt(techs, id), y).Ok?
    ensures Build(scenario, techs, allowSlack, slackPenalty, discountRate).value.cells[(id, y)] ==
              CellOf(scenario.baseline, TechAt(techs, id), y).value
  {
    CellTableAt(Cells(scenario.baseline), techs, scenario.timeline, id, y);
  }

  /** The built model's scalars and requirements: lifetimes and ramp rates as given, requirements in tonnes. */
  lemma {:induction false} BuildScalars(scenario: Scenario.EmissionsScenario, techs: Techs,
                     allowSlack: bool, slackPenalty: real, discountRate: real, id: string, y: int)
    requires Build(scenario, techs, allowSlack, slackPenalty, discountRate).Ok?
    requires OrderedMaps.HasKey(techs, id) && y in scenario.timeline
    ensures var m := Build(scenario, techs, allowSlack, slackPenalty, discountRate).value;
            var t := TechAt(techs, id);
            m.life[id] == t.constraints.lifetimeYears && m.ramp[id] == t.constraints.rampRatePerYear &&
            m.req[y] == scenario.GetRequiredAbatement(y) * 1000000.0 && m.req[y] >= 0.0
  {
  }

  /** The discount factor is 1 in the first timeline year and, for a positive rate, falls with the year. */
  lemma {:induction false} DiscountFromFirstYear(scenario: Scenario.EmissionsScenario, techs: Techs,
                              allowSlack: bool, slackPenalty: real, discountRate: real, y1: int, y2: int)
    requires Build(scenario, techs, allowSlack, slackPenalty, discountRate).Ok?
    requires y1 in scenario.timeline && y2 in scenario.timeline
    ensures var m := Build(scenario, techs, allowSlack, slackPenalty, discountRate).value;
            m.df[m.firstYear] == 1.0 &&
            (discountRate > 0.0 && y1 < y2 ==> m.df[y2] < m.df[y1] <= 1.0)
  {
    var m := Build(scenario, techs, allowSlack, slackPenalty, discountRate).value;
    var base := m.firstYear;
    assert Ok(m.df[base]) == Finance.DiscountFactor(discountRate, base, base);
    if discountRate > 0.0 && y1 < y2 {
      assert Ok(m.df[y1]) == Finance.DiscountFactor(discountRate, y1, base);
      assert Ok(m.df[y2]) == Finance.DiscountFactor(discountRate, y2, base);
      Finance.DiscountDecreasing(discountRate, base, y1, y2);
    }
  }

  /** In a year whose cell is all zero nothing is installed and nothing is abated. */
  lemma {:induction false} NothingWhileUnavailable(m: CorrectedModel, d: Decision, i: string, t: int)
    requires WellFormed(m) && Defined(m, d) && NonNegative(m, d) && CapacityLimit(m, d) && AbatementCalc(m, d)
    requires i in m.techs && t in m.years && m.cells[(i, t)] == Unavailable
    ensures d.install[(i, t)] == 0.0 && d.abatement[(i, t)] == 0.0
  {
  }

  /**
   * Installations within [0, bound] every year give a total capacity of at
   * most `bound` per alive vintage, and, the years being distinct, at most
   * `bound * lifetime`. The requires are what NonNegative, CapacityLimit and
   * CapacityEvolution say about technology i when none of its cells allows
   * more than `bound`.
   */
  lemma {:induction false} TotalCapacityBounded(m: CorrectedModel, d: Decision, i: string, t: int, bound: real)
    requires i in m.life && t in m.years
    requires forall tau :: tau in m.years ==> (i, tau) in d.install && 0.0 <= d.install[(i, tau)] <= bound
    requires (i, t) in d.total && d.total[(i, t)] == Stock(d.install, i, m.years, t, m.life[i])
    ensures d.total[(i, t)] <= bound * |Alive(m.years, t, m.life[i])| as real
    ensures Distinct(m.years) && m.life[i] >= 0 ==> d.total[(i, t)] <= bound * m.life[i] as real
  {
    var life := m.life[i];
    StockBoundedByRate(d.install, i, m.years, t, life, bound);
    assert d.total[(i, t)] <= bound * |Alive(m.years, t, life)| as real;
  }

  /** Abatement never exceeds what the available capacity could abate. */
  lemma {:induction false} AbatementWithinCapacity(m: CorrectedModel, d: Decision, i: string, t: int)
    requires WellFormed(m) && Defined(m, d) && ProductionLimit(m, d) && AbatementCalc(m, d)
    requires i in m.techs && t in m.years && m.cells[(i, t)].abatementPerT >= 0.0
    ensures d.abatement[(i, t)] <= d.total[(i, t)] * m.cells[(i, t)].abatementPerT * 1000.0
  {
    var k := m.cells[(i, t)].abatementPerT * 1000.0;
    MulNonNegative(d.total[(i, t)] - d.production[(i, t)], k);
  }

  /** A technology never produces more than its process's baseline production. */
  lemma {:induction false} ProductionWithinProcess(m: CorrectedModel, d: Decision, i: string, t: int)
    requires WellFormed(m) && Defined(m, d) && NonNegative(m, d) && ProcessBalance(m, d)
    requires i in m.techs && t in m.years && m.processOf[i] in m.processes
    ensures d.production[(i, t)] <= m.baselineProductionKt[m.processOf[i]]
  {
    var p := m.processOf[i];
    var group := TechsOf(m, m.techs, p);
    var row := Row(d.production, group, t);
    var k :| 0 <= k < |group| && group[k] == i;
    forall j | 0 <= j < |row|
      ensures row[j] >= 0.0
    {
      assert group[j] in group;
    }
    ElementAtMostSum(row, k);
  }

  /** Without slack, each year's abatement reaches the scenario's requirement, in tonnes. */
  lemma {:induction false} TargetMetWithoutSlack(scenario: Scenario.EmissionsScenario, techs: Techs,
                              slackPenalty: real, discountRate: real, d: Decision, t: int)
    requires Build(scenario, techs, false, slackPenalty, discountRate).Ok?
    requires var m := Build(scenario, techs, false, slackPenalty, discountRate).value;
             Defined(m, d) && TargetRule(m, d)
    requires t in scenario.timeline
    ensures var m := Build(scenario, techs, false, slackPenalty, discountRate).value;
            YearAbatement(m, d, t) >= scenario.GetRequiredAbatement(t) * 1000000.0 >= 0.0 &&
            YearAbatement(m, d, t) >= (scenario.baseline.totalEmissionsMt - scenario.GetTargetEmissions(t)) * 1000000.0
  {
  }

  // ----------------------------------------------------------- objective

  /** One (technology, year) term: discounted annualised capex plus opex in million USD. */
  function CostTerm(m: CorrectedModel, d: Decision, i: string, t: int): real
    requires WellFormed(m) && Defined(m, d) && i in m.techs && t in m.years
  {
    var c := m.cells[(i, t)];
    m.df[t] * (d.install[(i, t)] * c.capexMusdPerKt * m.crf[i] + d.production[(i, t)] * c.opexUsdPerT / 1000.0)
  }

  function TechCost(m: CorrectedModel, d: Decision, i: string, ys: seq<int>): real
    requires WellFormed(m) && Defined(m, d) && i in m.techs && forall t :: t in ys ==> t in m.years
  {
    if |ys| == 0 then 0.0
    else
      var t := ys[|ys| - 1];
      assert t in ys;
      TechCost(m, d, i, ys[..|ys| - 1]) + CostTerm(m, d, i, t)
  }

  function CostStream(m: CorrectedModel, d: Decision, techs: seq<string>): real
    requires WellFormed(m) && Defined(m, d) && forall i :: i in techs ==> i in m.techs
  {
    if |techs| == 0 then 0.0
    else
      var i := techs[|techs| - 1];
      assert i in techs;
      CostStream(m, d, techs[..|techs| - 1]) + TechCost(m, d, i, m.years)
  }

  /** The discounted shortfall penalty, converted to million USD. */
  function PenaltyStream(m: CorrectedModel, d: Decision, ys: seq<int>): real
    requires WellFormed(m) && Defined(m, d) && forall t :: t in ys ==> t in m.years
  {
    if |ys| == 0 then 0.0
    else
      var t := ys[|ys| - 1];
      assert t in ys;
      PenaltyStream(m, d, ys[..|ys| - 1]) + m.df[t] * m.slackPenalty * d.shortfall[t] / 1000000.0
  }

  /** `total_cost`: technology costs, plus the penalty when slack is allowed. */
  function Objective(m: CorrectedModel, d: Decision): real
    requires WellFormed(m) && Defined(m, d)
  {
    CostStream(m, d, m.techs) + (if m.allowSlack then PenaltyStream(m, d, m.years) else 0.0)
  }

  predicate NonNegativeCosts(m: CorrectedModel)
    requires WellFormed(m)
  {
    (forall i, t :: i in m.techs && t in m.years ==>
       m.cells[(i, t)].capexMusdPerKt >= 0.0 && m.cells[(i, t)].opexUsdPerT >= 0.0) &&
    (forall i :: i in m.techs ==> m.crf[i] >= 0.0) &&
    (forall t :: t in m.years ==> m.df[t] >= 0.0) &&
    m.slackPenalty >= 0.0
  }

  lemma {:induction false} CostTermNonNegative(m: CorrectedModel, d: Decision, i: string, t: int)
    requires WellFormed(m) && Defined(m, d) && NonNegative(m, d) && NonNegativeCosts(m)
    requires i in m.techs && t in m.years
    ensures CostTerm(m, d, i, t) >= 0.0
  {
    var c := m.cells[(i, t)];
    MulNonNegative(d.install[(i, t)], c.capexMusdPerKt);
    MulNonNegative(d.install[(i, t)] * c.capexMusdPerKt, m.crf[i]);
    MulNonNegative(d.production[(i, t)], c.opexUsdPerT);
    MulNonNegative(m.df[t], d.install[(i, t)] * c.capexMusdPerKt * m.crf[i] + d.production[(i, t)] * c.opexUsdPerT / 1000.0);
  }

  lemma {:induction false} TechCostNonNegative(m: CorrectedModel, d: Decision, i: string, ys: seq<int>)
    requires WellFormed(m) && Defined(m, d) && NonNegative(m, d) && NonNegativeCosts(m)
    requires i in m.techs && forall t :: t in ys ==> t in m.years
    ensures TechCost(m, d, i, ys) >= 0.0
  {
    if |ys| > 0 {
      TechCostNonNegative(m, d, i, ys[..|ys| - 1]);
      CostTermNonNegative(m, d, i, ys[|ys| - 1]);
    }
  }

  lemma {:induction false} CostStreamNonNegative(m: CorrectedModel, d: Decision, techs: seq<string>)
    requires WellFormed(m) && Defined(m, d) && NonNegative(m, d) && NonNegativeCosts(m)
    requires forall i :: i in techs ==> i in m.techs
    ensures CostStream(m, d, techs) >= 0.0
  {
    if |techs| > 0 {
      CostStreamNonNegative(m, d, techs[..|techs| - 1]);
      TechCostNonNegative(m, d, techs[|techs| - 1], m.years);
    }
  }

  lemma {:induction false} PenaltyStreamNonNegative(m: CorrectedModel, d: Decision, ys: seq<int>)
    requires WellFormed(m) && Defined(m, d) && NonNegative(m, d) && NonNegativeCosts(m)
    requires forall t :: t in ys ==> t in m.years
    ensures PenaltyStream(m, d, ys) >= 0.0
  {
    if |ys| > 0 {
      var t := ys[|ys| - 1];
      PenaltyStreamNonNegative(m, d, ys[..|ys| - 1]);
      MulNonNegative(m.df[t], m.slackPenalty);
      MulNonNegative(m.df[t] * m.slackPenalty, d.shortfall[t]);
    }
  }

  /** With non-negative costs and factors every admissible decision costs at least 0. */
  lemma {:induction false} ObjectiveNonNegative(m: CorrectedModel, d: Decision)
    requires WellFormed(m) && Defined(m, d) && NonNegative(m, d) && NonNegativeCosts(m)
    ensures Objective(m, d) >= 0.0
  {
    CostStreamNonNegative(m, d, m.techs);
    PenaltyStreamNonNegative(m, d, m.years);
  }

  /** A decision that installs and produces nothing pays only the shortfall penalty. */
  lemma {:induction false} IdleTechCostsNothing(m: CorrectedModel, d: Decision, i: string, ys: seq<int>)
    requires WellFormed(m) && Defined(m, d) && i in m.techs && forall t :: t in ys ==> t in m.years
    requires forall t :: t in m.years ==> d.install[(i, t)] == 0.0 && d.production[(i, t)] == 0.0
    ensures TechCost(m, d, i, ys) == 0.0
  {
    if |ys| > 0 {
      IdleTechCostsNothing(m, d, i, ys[..|ys| - 1]);
    }
  }

  lemma {:induction false} IdleStreamCostsNothing(m: CorrectedModel, d: Decision, techs: seq<string>)
    requires WellFormed(m) && Defined(m, d) && forall i :: i in techs ==> i in m.techs
    requires forall i, t :: i in m.techs && t in m.years ==> d.install[(i, t)] == 0.0 && d.production[(i, t)] == 0.0
    ensures CostStream(m, d, techs) == 0.0
  {
    if |techs| > 0 {
      IdleStreamCostsNothing(m, d, techs[..|techs| - 1]);
      IdleTechCostsNothing(m, d, techs[|techs| - 1], m.years);
    }
  }

  lemma {:induction false} IdleDecisionPaysOnlyPenalty(m: CorrectedModel, d: Decision)
    requires WellFormed(m) && Defined(m, d)
    requires forall i, t :: i in m.techs && t in m.years ==> d.install[(i, t)] == 0.0 && d.production[(i, t)] == 0.0
    ensures Objective(m, d) == if m.allowSlack then PenaltyStream(m, d, m.years) else 0.0
  {
    IdleStreamCostsNothing(m, d, m.techs);
  }

  // ------------------------------------------------------------ builder

  /** The sizes `get_model_summary` reports. */
  datatype ModelSummary = ModelSummary(
    years: nat, technologies: nat, processes: nat,
    installCapacity: nat, totalCapacity: nat, production: nat, abatement: nat, shortfall: nat)

  /** Each per-(technology, year) variable family has |techs| x |years| members; shortfall one per year, if any. */
  function Summarize(m: CorrectedModel): (s: ModelSummary)
    ensures s.installCapacity == s.totalCapacity == s.production == s.abatement == s.technologies * s.years
    ensures s.shortfall == if m.allowSlack then s.years else 0
    ensures s.years == |m.years| && s.technologies == |m.techs| && s.processes == |m.processes|
  {
    var n := |m.techs| * |m.years|;
    ModelSummary(|m.years|, |m.techs|, |m.processes|, n, n, n, n, if m.allowSlack then |m.years| else 0)
  }

  class CorrectedMaccModelBuilder {
    const scenario: Scenario.EmissionsScenario
    const portfolio: Portfolio.TechPortfolio
    var model: Option<CorrectedModel>

    constructor (scenario: Scenario.EmissionsScenario, portfolio: Portfolio.TechPortfolio)
      ensures this.scenario == scenario && this.portfolio == portfolio && model == None
    {
      this.scenario := scenario;
      this.portfolio := portfolio;
      model := None;
    }

    /**
     * `build_model(allow_slack=True, slack_penalty=1e15, discount_rate=0.05)`:
     * the model is stored only when building succeeds.
     */
    method BuildModel(allowSlack: bool, slackPenalty: real, discountRate: real) returns (r: Result<CorrectedModel>)
      requires portfolio.Valid()
      modifies this
      ensures r == Build(scenario, portfolio.technologies, allowSlack, slackPenalty, discountRate)
      ensures model == if r.Ok? then Some(r.value) else old(model)
    {
      var cells := TechnologyParameters(Cells(scenario.baseline), portfolio.technologies, scenario.timeline);
      if cells.Err? {
        return Err(AttributeError);
      }
      r := Assemble(scenario, portfolio.technologies, cells.value, allowSlack, slackPenalty, discountRate);
      if r.Ok? {
        model := Some(r.value);
      }
    }

    /** `get_model_summary`: None where the source returns its "Model not built yet" error entry. */
    function GetModelSummary(): (r: Option<ModelSummary>)
      reads this
      ensures r.None? <==> model.None?
      ensures r.Some? ==> r.value == Summarize(model.value)
    {
      if model.None? then None else Some(Summarize(model.value))
    }
  }
}
