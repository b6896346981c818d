/**
 * The original MACC LP builder: activity-limited deployment per technology
 * and year, abatement equalities, a ramp rule against the previous calendar
 * year, the emissions target with a shortfall in Mt, mutual exclusivity of
 * transitions leaving the same band, and the discounted cost objective.
 * Constraints are predicates over a candidate decision; nothing is solved.
 */
module ModelBuilder {

  import opened Wrappers
  import opened Reals
  import opened Vintage
  import opened Technology
  import opened TechTables
  import Finance
  import Ints
  import OrderedMaps
  import Scenario
  import Portfolio

  // ------------------------------------------------------------- parameters

  /**
   * The four parameters of one (technology, year) cell: capex in USD per t
   * of capacity, opex in USD per t, abatement in t CO2 per t and the
   * activity (kt) the technology may deploy.
   */
  datatype Cell = Cell(capexUsdPerT: real, opexUsdPerT: real, abatementPerT: real, activityKt: real)

  /** The cell of a year before the technology's start. */
  const Unavailable := Cell(0.0, 0.0, 0.0, 0.0)

  /** The cell of technology `t` in `year`: all zero before the start year. */
  function CellOf(b: Scenario.EmissionsBaseline, t: Technology, year: int): (r: Result<Cell>)
    ensures year < t.constraints.startYear ==> r == Ok(Unavailable)
    ensures r.Err? ==> r.error == AttributeError
    ensures year >= t.constraints.startYear ==> (r.Ok? <==> MaxCapacity(b, t).Ok?)
    ensures year >= t.constraints.startYear && r.Ok? ==>
              r.value.capexUsdPerT * 1000.0 == t.costStructure.capexUsdPerKt &&
              r.value.activityKt == Portfolio.ApplicableCapacity(b, t) * t.constraints.maxApplicability
  {
    if year >= t.constraints.startYear then
      match MaxCapacity(b, t)
      case Err(e) => Err(e)
      case Ok(c) => Ok(Cell(t.costStructure.capexUsdPerKt / 1000.0, t.costStructure.opexDeltaUsdPerT,
                            t.abatementPotential, c))
    else Ok(Unavailable)
  }

  /** The cell function `_add_technology_parameters` applies to every technology and year. */
  function Cells(b: Scenario.EmissionsBaseline): (Technology, int) -> Result<Cell>
  {
    (t, y) => CellOf(b, t, y)
  }

  // ------------------------------------------------------ exclusivity groups

  /** Transitions are grouped by their process and source band. */
  type GroupKey = (string, Option<TechBand>)

  type Groups = OrderedMaps.Dict<GroupKey, seq<string>>

  predicate InGroup(t: Technology, k: GroupKey)
  {
    t.techType == Transition && (t.processType, t.fromBand) == k
  }

  /** The ids of the transitions with key `k`, in portfolio order. */
  function Members(techs: Techs, k: GroupKey): (r: seq<string>)
    ensures forall j :: 0 <= j < |techs| && InGroup(techs[j].1, k) ==> techs[j].0 in r
    ensures forall id :: id in r ==> exists p :: p in techs && p.0 == id && InGroup(p.1, k)
  {
    if |techs| == 0 then []
    else
      var init := techs[..|techs| - 1];
      var last := techs[|techs| - 1];
      var rest := Members(init, k);
      assert forall j :: 0 <= j < |init| ==> init[j] == techs[j];
      assert forall p :: p in init ==> p in techs;
      if InGroup(last.1, k) then rest + [last.0] else rest
  }

  /** The `exclusivity_groups` dict: keys in order of their first transition. */
  function GroupsOf(techs: Techs): (g: Groups)
    ensures OrderedMaps.DistinctKeys(g)
  {
    if |techs| == 0 then []
    else
      var g := GroupsOf(techs[..|techs| - 1]);
      var (id, t) := techs[|techs| - 1];
      if t.techType == Transition then
        var k := (t.processType, t.fromBand);
        OrderedMaps.PutDistinct(g, k, OrderedMaps.GetOr(g, k, []) + [id]);
        OrderedMaps.Put(g, k, OrderedMaps.GetOr(g, k, []) + [id])
      else g
  }

  /** The group stored under a key lists exactly the transitions with that key, and only such keys are stored. */
  lemma {:induction false} GroupsAreMembers(techs: Techs, k: GroupKey)
    ensures OrderedMaps.GetOr(GroupsOf(techs), k, []) == Members(techs, k)
    ensures OrderedMaps.HasKey(GroupsOf(techs), k) <==> |Members(techs, k)| > 0
  {
    if |techs| > 0 {
      var init := techs[..|techs| - 1];
      var (id, t) := techs[|techs| - 1];
      var g := GroupsOf(init);
      GroupsAreMembers(init, k);
      if t.techType == Transition {
        var key := (t.processType, t.fromBand);
        var v := OrderedMaps.GetOr(g, key, []) + [id];
        OrderedMaps.PutGet(g, key, v, k);
        assert GroupsOf(techs) == OrderedMaps.Put(g, key, v);
      }
    }
  }

  /** Every stored pair is a key with its members. */
  lemma {:induction false} GroupPairs(techs: Techs, kv: (GroupKey, seq<string>))
    requires kv in GroupsOf(techs)
    ensures kv.1 == Members(techs, kv.0) && |kv.1| > 0
  {
    var g := GroupsOf(techs);
    var j :| 0 <= j < |g| && g[j] == kv;
    OrderedMaps.GetFound(g, kv.0);
    assert OrderedMaps.Get(g, kv.0) == Some(kv.1);
    GroupsAreMembers(techs, kv.0);
  }

  /**
   * The grouping loop of `_add_exclusivity_constraints`: an empty list is
   * stored for a new key, then the transition's id is appended.
   */
  method ExclusivityGroups(techs: Techs) returns (groups: Groups)
    ensures groups == GroupsOf(techs)
  {
    groups := [];
    var j := 0;
    while j < |techs|
      invariant 0 <= j <= |techs|
      invariant groups == GroupsOf(techs[..j])
    {
      var (id, t) := techs[j];
      ghost var g0 := groups;
      assert techs[..j + 1][..j] == techs[..j];
      if t.techType == Transition {
        var key := (t.processType, t.fromBand);
        ghost var v := OrderedMaps.GetOr(g0, key, []) + [id];
        if !OrderedMaps.HasKey(groups, key) {
          groups := OrderedMaps.Put(groups, key, []);
          OrderedMaps.PutGet(g0, key, [], key);
        }
        assert OrderedMaps.Get(groups, key).value + [id] == v;
        groups := OrderedMaps.Put(groups, key, OrderedMaps.Get(groups, key).value + [id]);
        if !OrderedMaps.HasKey(g0, key) {
          OrderedMaps.PutTwice(g0, key, [], v);
        }
        assert groups == OrderedMaps.Put(g0, key, v);
      }
      j := j + 1;
    }
    assert techs[..j] == techs;
  }

  /** One exclusivity constraint: the group's deployments together stay within a band's capacity. */
  datatype ExclusivityCap = ExclusivityCap(techs: seq<string>, capacityKt: real)

  /** A group that gets a constraint: more than one member, and a process known to the baseline. */
  predicate Capped(b: Scenario.EmissionsBaseline, kv: (GroupKey, seq<string>))
  {
    |kv.1| > 1 && OrderedMaps.HasKey(b.processBaselines, kv.0.0)
  }

  /** The capacity of the band `band` of process `p`. */
  function BandCapacity(b: Scenario.EmissionsBaseline, p: string, band: TechBand): real
  {
    b.GetBandCapacity(p, p + "_" + BandValue(band))
  }

  /**
   * The constraints of the groups in dict order; a capped group whose key
   * has no band fails on `from_band.value`, other groups are skipped.
   */
  function ExclusivityCaps(b: Scenario.EmissionsBaseline, groups: Groups): (r: Result<seq<ExclusivityCap>>)
    ensures r.Err? <==> exists kv :: kv in groups && Capped(b, kv) && kv.0.1.None?
    ensures r.Err? ==> r.error == AttributeError
    ensures r.Ok? ==> forall kv :: kv in groups && Capped(b, kv) ==>
                        kv.0.1.Some? && ExclusivityCap(kv.1, BandCapacity(b, kv.0.0, kv.0.1.value)) in r.value
    ensures r.Ok? ==> forall c :: c in r.value ==>
                        exists kv :: kv in groups && Capped(b, kv) && kv.0.1.Some? &&
                                     c == ExclusivityCap(kv.1, BandCapacity(b, kv.0.0, kv.0.1.value))
  {
    if |groups| == 0 then Ok([])
    else
      var init := groups[..|groups| - 1];
      var kv := groups[|groups| - 1];
      assert forall x :: x in groups <==> x in init || x == kv;
      match ExclusivityCaps(b, init)
      case Err(e) => Err(e)
      case Ok(cs) =>
        if !Capped(b, kv) then Ok(cs)
        else if kv.0.1.None? then Err(AttributeError)
        else Ok(cs + [ExclusivityCap(kv.1, BandCapacity(b, kv.0.0, kv.0.1.value))])
  }

  // ------------------------------------------------------------ the model

  datatype MaccModel = MaccModel(
    years: seq<int>,
    techs: seq<string>,
    processes: seq<string>,
    cells: map<(string, int), Cell>,
    life: map<string, int>,
    ramp: map<string, real>,
    req: map<int, real>,
    df: map<int, real>,
    firstYear: int,
    allowSlack: bool,
    slackPenalty: real,
    caps: seq<ExclusivityCap>)

  /** Some timeline year other than the first lacks its previous calendar year, with a technology to ramp. */
  predicate RampIndexMissing(years: seq<int>, techs: seq<string>)
    requires |years| > 0
  {
    |techs| > 0 && exists t :: t in years && t != Ints.MinInt(years) && t - 1 !in years
  }

  predicate WellFormed(m: MaccModel)
  {
    (forall i, t :: i in m.techs && t in m.years ==> (i, t) in m.cells) &&
    (forall i :: i in m.techs ==> i in m.life && i in m.ramp) &&
    (forall t :: t in m.years ==> t in m.req && t in m.df) &&
    m.firstYear in m.years && (forall t :: t in m.years ==> m.firstYear <= t) &&
    (|m.techs| > 0 ==> forall t :: t in m.years && t != m.firstYear ==> t - 1 in m.years) &&
    (forall c, i :: c in m.caps && i in c.techs ==> i in m.techs)
  }

  /** Everything but the cells, from `_add_technology_parameters` on; `groups` is the grouping dict. */
  function Assemble(scenario: Scenario.EmissionsScenario, techs: Techs, cells: map<(string, int), Cell>,
                    groups: Groups, allowSlack: bool, slackPenalty: real, discountRate: real): (r: Result<MaccModel>)
    reads scenario
  {
    var years := scenario.timeline;
    if |years| == 0 then Err(ValueError)
    else
      var base := Ints.MinInt(years);
      match Finance.DiscountFactors(years, discountRate, base)
      case Err(e) => Err(e)
      case Ok(df) =>
        var keys := OrderedMaps.Keys(techs);
        if RampIndexMissing(years, keys) then Err(KeyError)
        else
          match ExclusivityCaps(scenario.baseline, groups)
          case Err(e) => Err(e)
          case Ok(caps) =>
            Ok(MaccModel(
              years, keys, OrderedMaps.Keys(scenario.baseline.processBaselines), cells,
              map id | id in keys :: TechAt(techs, id).constraints.lifetimeYears,
              map id | id in keys :: TechAt(techs, id).constraints.rampRatePerYear,
              map y | y in years :: scenario.GetRequiredAbatement(y) * 1000000.0,
              df, base, allowSlack, slackPenalty, caps))
  }

  /**
   * `build_model` (the scenario keeps its timeline sorted). The failures in
   * the order they are met: AttributeError from a cell, ValueError from
   * `min` of an empty timeline, ZeroDivisionError from a discount factor,
   * KeyError from a ramp rule reaching a year outside the timeline, and
   * AttributeError from an exclusivity group without a band.
   */
  function Build(scenario: Scenario.EmissionsScenario, techs: Techs, allowSlack: bool, slackPenalty: real,
                 discountRate: real): (r: Result<MaccModel>)
    reads scenario
    ensures !CellsDefined(Cells(scenario.baseline), techs, scenario.timeline) ==> r == Err(AttributeError)
    ensures CellsDefined(Cells(scenario.baseline), techs, scenario.timeline) && |scenario.timeline| == 0 ==>
              r == Err(ValueError)
    ensures r.Ok? <==> CellsDefined(Cells(scenario.baseline), techs, scenario.timeline) && |scenario.timeline| > 0 &&
                       Finance.DiscountFactors(scenario.timeline, discountRate, Ints.MinInt(scenario.timeline)).Ok? &&
                       !RampIndexMissing(scenario.timeline, OrderedMaps.Keys(techs)) &&
                       ExclusivityCaps(scenario.baseline, GroupsOf(techs)).Ok?
    ensures r == Err(KeyError) <==> CellsDefined(Cells(scenario.baseline), techs, scenario.timeline) &&
                                    |scenario.timeline| > 0 &&
                                    Finance.DiscountFactors(scenario.timeline, discountRate, Ints.MinInt(scenario.timeline)).Ok? &&
                                    RampIndexMissing(scenario.timeline, OrderedMaps.Keys(techs))
    ensures r.Ok? ==> WellFormed(r.value) && r.value.allowSlack == allowSlack && r.value.years == scenario.timeline
    ensures r.Ok? ==> forall i :: i in r.value.techs <==> OrderedMaps.HasKey(techs, i)
  {
    if !CellsDefined(Cells(scenario.baseline), techs, scenario.timeline) then Err(AttributeError)
    else
      AssembledWellFormed(scenario, techs, allowSlack, slackPenalty, discountRate);
      Assemble(scenario, techs, CellTable(Cells(scenario.baseline), techs, scenario.timeline),
               GroupsOf(techs), allowSlack, slackPenalty, discountRate)
  }

  /** Every cap lists registered technologies, so an assembled model is well formed. */
  lemma {:induction false} AssembledWellFormed(scenario: Scenario.EmissionsScenario, techs: Techs, allowSlack: bool,
                                               slackPenalty: real, discountRate: real)
    requires CellsDefined(Cells(scenario.baseline), techs, scenario.timeline)
    ensures var r := Assemble(scenario, techs, CellTable(Cells(scenario.baseline), techs, scenario.timeline),
                              GroupsOf(techs), allowSlack, slackPenalty, discountRate);
            r.Ok? ==> WellFormed(r.value)
  {
    var r := Assemble(scenario, techs, CellTable(Cells(scenario.baseline), techs, scenario.timeline),
                      GroupsOf(techs), allowSlack, slackPenalty, discountRate);
    if r.Ok? {
      forall c, i | c in r.value.caps && i in c.techs
        ensures i in r.value.techs
      {
        var kv :| kv in GroupsOf(techs) && Capped(scenario.baseline, kv) && kv.0.1.Some? &&
                  c == ExclusivityCap(kv.1, BandCapacity(scenario.baseline, kv.0.0, kv.0.1.value));
        GroupPairs(techs, kv);
        var p :| p in techs && p.0 == i && InGroup(p.1, kv.0);
        var j :| 0 <= j < |techs| && techs[j] == p;
        assert OrderedMaps.Keys(techs)[j] == i;
      }
    }
  }

  // --------------------------------------------------------- the decision

  /** The variables; `shortfall` (Mt) is read only when slack is allowed. */
  datatype Decision = Decision(deployment: Table, abate: Table, shortfall: map<int, real>)

  predicate Defined(m: MaccModel, d: Decision)
  {
    Covers(d.deployment, m.techs, m.years) && Covers(d.abate, m.techs, m.years) &&
    (forall t :: t in m.years ==> t in d.shortfall)
  }

  /** The variables are `NonNegativeReals`. */
  predicate NonNegative(m: MaccModel, d: Decision)
    requires Defined(m, d)
  {
    (forall i, t :: i in m.techs && t in m.years ==> d.deployment[(i, t)] >= 0.0 && d.abate[(i, t)] >= 0.0) &&
    (forall t :: t in m.years ==> d.shortfall[t] >= 0.0)
  }

  /** Abatement (t CO2) is deployment (kt) times the abatement per tonne times 1000. */
  predicate AbatementCalc(m: MaccModel, d: Decision)
    requires WellFormed(m) && Defined(m, d)
  {
    forall i, t :: i in m.techs && t in m.years ==>
      d.abate[(i, t)] == d.deployment[(i, t)] * m.cells[(i, t)].abatementPerT * 1000.0
  }

  /** Deployment never exceeds the activity. */
  predicate CapacityLimit(m: MaccModel, d: Decision)
    requires WellFormed(m) && Defined(m, d)
  {
    forall i, t :: i in m.techs && t in m.years ==> d.deployment[(i, t)] <= m.cells[(i, t)].activityKt
  }

  /** After the first year, deployment grows from the previous calendar year's by at most activity times ramp rate. */
  predicate RampRule(m: MaccModel, d: Decision)
    requires WellFormed(m) && Defined(m, d)
  {
    forall i, t :: i in m.techs && t in m.years && t != m.firstYear ==>
      d.deployment[(i, t)] <= d.deployment[(i, t - 1)] + m.cells[(i, t)].activityKt * m.ramp[i]
  }

  function YearAbatement(m: MaccModel, d: Decision, t: int): real
    requires Defined(m, d) && t in m.years
  {
    Sum(Row(d.abate, m.techs, t))
  }

  /** The year's abatement, plus the shortfall (Mt, hence times 1e6) when slack is allowed, covers the requirement. */
  predicate TargetRule(m: MaccModel, d: Decision)
    requires WellFormed(m) && Defined(m, d)
  {
    forall t :: t in m.years ==>
      (if m.allowSlack then YearAbatement(m, d, t) + d.shortfall[t] * 1000000.0 else YearAbatement(m, d, t)) >= m.req[t]
  }

  /** Every capped group's deployments together stay within its band's capacity, every year. */
  predicate ExclusivityRule(m: MaccModel, d: Decision)
    requires WellFormed(m) && Defined(m, d)
  {
    forall c, t :: c in m.caps && t in m.years ==> Sum(Row(d.deployment, c.techs, t)) <= c.capacityKt
  }

  predicate Feasible(m: MaccModel, d: Decision)
  {
    WellFormed(m) && Defined(m, d) && NonNegative(m, d) &&
    AbatementCalc(m, d) && CapacityLimit(m, d) && RampRule(m, d) && TargetRule(m, d) && ExclusivityRule(m, d)
  }

  // ------------------------------------------------------------- lemmas

  /**
   * The built model's cells: before the technology's start a cell is all
   * zero; from the start on it carries capex converted to USD per t, the
   * opex, the abatement and the applicable capacity times the maximum
   * applicability.
   */
  lemma {:induction false} BuildCells(scenario: Scenario.EmissionsScenario, techs: Techs, allowSlack: bool, slackPenalty: real,
                   discountRate: real, id: string, y: int)
    requires Build(scenario, techs, allowSlack, slackPenalty, discountRate).Ok?
    requires OrderedMaps.HasKey(techs, id) && y in scenario.timeline
    ensures var m := Build(scenario, techs, allowSlack, slackPenalty, discountRate).value;
            var t := TechAt(techs, id);
            (y < t.constraints.startYear ==> m.cells[(id, y)] == Unavailable) &&
            (y >= t.constraints.startYear ==>
               m.cells[(id, y)].capexUsdPerT * 1000.0 == t.costStructure.capexUsdPerKt &&
               m.cells[(id, y)].opexUsdPerT == t.costStructure.opexDeltaUsdPerT &&
               m.cells[(id, y)].abatementPerT == t.abatementPotential &&
               m.cells[(id, y)].activityKt == Portfolio.ApplicableCapacity(scenario.baseline, t) * t.constraints.maxApplicability)
  {
    BuildCellIsCellOf(scenario, techs, allowSlack, slackPenalty, discountRate, id, y);
  }

  lemma {:induction false} BuildCellIsCellOf(scenario: Scenario.EmissionsScenario, techs: Techs, allowSlack: bool, slackPenalty: real,
                          discountRate: real, id: string, y: int)
    requires Build(scenario, techs, allowSlack, slackPenalty, discountRate).Ok?
    requires OrderedMaps.HasKey(techs, id) && y in scenario.timeline
    ensures CellOf(scenario.baseline, TechAt(techs, id), y).Ok?
    ensures Build(scenario, techs, allowSlack, slackPenalty, discountRate).value.cells[(id, y)] ==
              CellOf(scenario.baseline, TechAt(techs, id), y).value
  {
    CellTableAt(Cells(scenario.baseline), techs, scenario.timeline, id, y);
  }

  /** The built model's ramp rates and lifetimes are the technologies'; requirements are in tonnes. */
  lemma {:induction false} BuildScalars(scenario: Scenario.EmissionsScenario, techs: Techs, allowSlack: bool, slackPenalty: real,
                     discountRate: real, id: string, y: int)
    requires Build(scenario, techs, allowSlack, slackPenalty, discountRate).Ok?
    requires OrderedMaps.HasKey(techs, id) && y in scenario.timeline
    ensures var m := Build(scenario, techs, allowSlack, slackPenalty, discountRate).value;
            var t := TechAt(techs, id);
            m.life[id] == t.constraints.lifetimeYears && m.ramp[id] == t.constraints.rampRatePerYear &&
            m.req[y] == scenario.GetRequiredAbatement(y) * 1000000.0 && m.req[y] >= 0.0
  {
  }

  /** The discount factor is 1 in the first timeline year and, for a positive rate, falls with the year. */
  lemma {:induction false} DiscountFromFirstYear(scenario: Scenario.EmissionsScenario, techs: Techs, allowSlack: bool,
                              slackPenalty: real, discountRate: real, y1: int, y2: int)
    requires Build(scenario, techs, allowSlack, slackPenalty, discountRate).Ok?
    requires y1 in scenario.timeline && y2 in scenario.timeline
    ensures var m := Build(scenario, techs, allowSlack, slackPenalty, discountRate).value;
            m.df[m.firstYear] == 1.0 &&
            (discountRate > 0.0 && y1 < y2 ==> m.df[y2] < m.df[y1] <= 1.0)
  {
    var m := Build(scenario, techs, allowSlack, slackPenalty, discountRate).value;
    var base := m.firstYear;
    assert Ok(m.df[base]) == Finance.DiscountFactor(discountRate, base, base);
    if discountRate > 0.0 && y1 < y2 {
      assert Ok(m.df[y1]) == Finance.DiscountFactor(discountRate, y1, base);
      assert Ok(m.df[y2]) == Finance.DiscountFactor(discountRate, y2, base);
      Finance.DiscountDecreasing(discountRate, base, y1, y2);
    }
  }

  /**
   * A timeline with a gap after its first year cannot be built for a
   * non-empty portfolio: the ramp rule of the year after the gap indexes
   * deployment in a calendar year outside the timeline.
   */
  lemma {:induction false} GapInTimelineRaisesKeyError(scenario: Scenario.EmissionsScenario, techs: Techs, allowSlack: bool,
                                    slackPenalty: real, discountRate: real)
    requires scenario.timeline == [2025, 2030] && |techs| > 0
    requires CellsDefined(Cells(scenario.baseline), techs, scenario.timeline) && discountRate > -1.0
    ensures Build(scenario, techs, allowSlack, slackPenalty, discountRate) == Err(KeyError)
  {
    var years := scenario.timeline;
    assert Ints.MinInt(years) == 2025;
    assert 2030 in years && 2029 !in years;
    assert OrderedMaps.Keys(techs)[0] == techs[0].0;
  }

  /** A consecutive timeline never makes the ramp rule index outside it. */
  lemma {:induction false} ConsecutiveTimelineRamps(years: seq<int>, techs: seq<string>)
    requires |years| > 0
    requires forall k :: 0 < k < |years| ==> years[k] == years[k - 1] + 1
    ensures !RampIndexMissing(years, techs)
  {
    var first := Ints.MinInt(years);
    forall t | t in years && t != first
      ensures t - 1 in years
    {
      var k :| 0 <= k < |years| && years[k] == t;
      if k == 0 {
        ConsecutiveAtLeastFirst(years);
        assert false;
      }
      assert years[k - 1] == t - 1;
    }
  }

  lemma {:induction false} ConsecutiveAtLeastFirst(years: seq<int>)
    requires |years| > 0
    requires forall k :: 0 < k < |years| ==> years[k] == years[k - 1] + 1
    ensures forall k :: 0 <= k < |years| ==> years[k] == years[0] + k
  {
    if |years| > 1 {
      var init := years[..|years| - 1];
      var n := |years| - 1;
      ConsecutiveAtLeastFirst(init);
      assert init[n - 1] == years[n - 1] && init[0] == years[0];
      assert years[n] == years[n - 1] + 1;
    }
  }

  /** Where the activity is zero (before the start, or for a process outside the baseline) nothing is deployed or abated. */
  lemma {:induction false} NothingWithoutActivity(m: MaccModel, d: Decision, i: string, t: int)
    requires WellFormed(m) && Defined(m, d) && NonNegative(m, d) && CapacityLimit(m, d) && AbatementCalc(m, d)
    requires i in m.techs && t in m.years && m.cells[(i, t)].activityKt == 0.0
    ensures d.deployment[(i, t)] == 0.0 && d.abate[(i, t)] == 0.0
  {
  }

  /** Abatement never exceeds what the full activity would abate. */
  lemma {:induction false} AbatementWithinActivity(m: MaccModel, d: Decision, i: string, t: int)
    requires WellFormed(m) && Defined(m, d) && CapacityLimit(m, d) && AbatementCalc(m, d)
    requires i in m.techs && t in m.years && m.cells[(i, t)].abatementPerT >= 0.0
    ensures d.abate[(i, t)] <= m.cells[(i, t)].activityKt * m.cells[(i, t)].abatementPerT * 1000.0
  {
    var k := m.cells[(i, t)].abatementPerT * 1000.0;
    MulNonNegative(m.cells[(i, t)].activityKt - d.deployment[(i, t)], k);
  }

  /** The ramp allowance of technology `i` over the `n` calendar years after `y`. */
  function RampAllowance(m: MaccModel, i: string, y: int, n: nat): real
    requires WellFormed(m) && i in m.techs
    requires forall t :: y < t <= y + n ==> t in m.years
  {
    if n == 0 then 0.0
    else RampAllowance(m, i, y, n - 1) + m.cells[(i, y + n)].activityKt * m.ramp[i]
  }

  /**
   * Over a run of consecutive timeline years, deployment exceeds its level
   * at the start of the run by at most the summed ramp allowance.
   */
  lemma {:induction false} RampChain(m: MaccModel, d: Decision, i: string, y: int, n: nat)
    requires WellFormed(m) && Defined(m, d) && RampRule(m, d)
    requires i in m.techs && y in m.years
    requires forall t :: y < t <= y + n ==> t in m.years
    ensures d.deployment[(i, y + n)] <= d.deployment[(i, y)] + RampAllowance(m, i, y, n)
  {
    if n > 0 {
      RampChain(m, d, i, y, n - 1);
      assert y + n != m.firstYear;
      assert d.deployment[(i, y + n)] <= d.deployment[(i, y + n - 1)] + m.cells[(i, y + n)].activityKt * m.ramp[i];
    }
  }

  /** A capped group's member never deploys more than the band's capacity. */
  lemma {:induction false} ExclusiveMemberWithinBand(m: MaccModel, d: Decision, c: ExclusivityCap, i: string, t: int)
    requires WellFormed(m) && Defined(m, d) && NonNegative(m, d) && ExclusivityRule(m, d)
    requires c in m.caps && i in c.techs && t in m.years
    ensures d.deployment[(i, t)] <= c.capacityKt
  {
    var row := Row(d.deployment, c.techs, t);
    var k :| 0 <= k < |c.techs| && c.techs[k] == i;
    forall j | 0 <= j < |row|
      ensures row[j] >= 0.0
    {
      assert c.techs[j] in c.techs;
    }
    ElementAtMostSum(row, k);
  }

  /**
   * In a built model, two transitions of a baseline process that leave the
   * same band share one constraint that caps their joint deployment at
   * that band's capacity.
   */
  lemma {:induction false} BuildExclusivity(scenario: Scenario.EmissionsScenario, techs: Techs, allowSlack: bool,
                         slackPenalty: real, discountRate: real, j1: nat, j2: nat)
    requires Build(scenario, techs, allowSlack, slackPenalty, discountRate).Ok?
    requires j1 < |techs| && j2 < |techs| && techs[j1].0 != techs[j2].0
    requires techs[j1].1.techType == Transition && techs[j2].1.techType == Transition
    requires techs[j1].1.processType == techs[j2].1.processType && techs[j1].1.fromBand == techs[j2].1.fromBand
    requires OrderedMaps.HasKey(scenario.baseline.processBaselines, techs[j1].1.processType)
    ensures techs[j1].1.fromBand.Some?
    ensures var m := Build(scenario, techs, allowSlack, slackPenalty, discountRate).value;
            var t := techs[j1].1;
            exists c :: c in m.caps && techs[j1].0 in c.techs && techs[j2].0 in c.techs &&
                        c.capacityKt == BandCapacity(scenario.baseline, t.processType, t.fromBand.value)
  {
    var t := techs[j1].1;
    var key := (t.processType, t.fromBand);
    SharedGroup(techs, j1, j2);
    BuildCaps(scenario, techs, allowSlack, slackPenalty, discountRate);
    var kv := (key, Members(techs, key));
    assert Capped(scenario.baseline, kv);
  }

  /** Two transitions with the same key are both listed in the group stored under that key. */
  lemma {:induction false} SharedGroup(techs: Techs, j1: nat, j2: nat)
    requires j1 < |techs| && j2 < |techs| && techs[j1].0 != techs[j2].0
    requires techs[j1].1.techType == Transition && techs[j2].1.techType == Transition
    requires techs[j1].1.processType == techs[j2].1.processType && techs[j1].1.fromBand == techs[j2].1.fromBand
    ensures var key := (techs[j1].1.processType, techs[j1].1.fromBand);
            var members := Members(techs, key);
            techs[j1].0 in members && techs[j2].0 in members && |members| > 1 &&
            (key, members) in GroupsOf(techs)
  {
    var key := (techs[j1].1.processType, techs[j1].1.fromBand);
    GroupsAreMembers(techs, key);
    var members := Members(techs, key);
    assert techs[j1].0 in members && techs[j2].0 in members;
    if |members| <= 1 {
      assert false;
    }
    OrderedMaps.GetIsPair(GroupsOf(techs), key);
  }

  /** A built model carries the caps of the capped groups. */
  lemma {:induction false} BuildCaps(scenario: Scenario.EmissionsScenario, techs: Techs, allowSlack: bool,
                                     slackPenalty: real, discountRate: real)
    requires Build(scenario, techs, allowSlack, slackPenalty, discountRate).Ok?
    ensures ExclusivityCaps(scenario.baseline, GroupsOf(techs)).Ok?
    ensures Build(scenario, techs, allowSlack, slackPenalty, discountRate).value.caps ==
            ExclusivityCaps(scenario.baseline, GroupsOf(techs)).value
  {
  }

  /** With slack, the target reads in Mt: abatement in Mt plus the shortfall covers the required abatement. */
  lemma {:induction false} ShortfallInMt(scenario: Scenario.EmissionsScenario, techs: Techs, slackPenalty: real, discountRate: real,
                      d: Decision, t: int)
    requires Build(scenario, techs, true, slackPenalty, discountRate).Ok?
    requires Defined(Build(scenario, techs, true, slackPenalty, discountRate).value, d)
    requires t in scenario.timeline
    ensures var m := Build(scenario, techs, true, slackPenalty, discountRate).value;
            TargetRule(m, d) ==>
              YearAbatement(m, d, t) / 1000000.0 + d.shortfall[t] >= scenario.GetRequiredAbatement(t)
  {
  }

  // ----------------------------------------------------------- objective

  /** One (technology, year) term: discounted capex plus opex, each per t of deployment, times 1000. */
  function CostTerm(m: MaccModel, d: Decision, i: string, t: int): real
    requires WellFormed(m) && Defined(m, d) && i in m.techs && t in m.years
  {
    var c := m.cells[(i, t)];
    m.df[t] * (c.capexUsdPerT * d.deployment[(i, t)] * 1000.0 + c.opexUsdPerT * d.deployment[(i, t)] * 1000.0)
  }

  function TechCost(m: MaccModel, d: Decision, i: string, ys: seq<int>): real
    requires WellFormed(m) && Defined(m, d) && i in m.techs && forall t :: t in ys ==> t in m.years
  {
    if |ys| == 0 then 0.0
    else
      var t := ys[|ys| - 1];
      assert t in ys;
      TechCost(m, d, i, ys[..|ys| - 1]) + CostTerm(m, d, i, t)
  }

  function CostStream(m: MaccModel, d: Decision, techs: seq<string>): real
    requires WellFormed(m) && Defined(m, d) && forall i :: i in techs ==> i in m.techs
  {
    if |techs| == 0 then 0.0
    else
      var i := techs[|techs| - 1];
      assert i in techs;
      CostStream(m, d, techs[..|techs| - 1]) + TechCost(m, d, i, m.years)
  }

  /** The discounted shortfall penalty, applied to the shortfall in Mt as it stands. */
  function PenaltyStream(m: MaccModel, d: Decision, ys: seq<int>): real
    requires WellFormed(m) && Defined(m, d) && forall t :: t in ys ==> t in m.years
  {
    if |ys| == 0 then 0.0
    else
      var t := ys[|ys| - 1];
      assert t in ys;
      PenaltyStream(m, d, ys[..|ys| - 1]) + m.df[t] * m.slackPenalty * d.shortfall[t]
  }

  /** `total_cost`: technology costs, plus the penalty when slack is allowed. */
  function Objective(m: MaccModel, d: Decision): real
    requires WellFormed(m) && Defined(m, d)
  {
    CostStream(m, d, m.techs) + (if m.allowSlack then PenaltyStream(m, d, m.years) else 0.0)
  }

  /**
   * The cost term is in USD: with the capex of the cell being the
   * technology's capex per kt over 1000 (as BuildCells gives it), the term is
   * capex per kt times the deployment in kt plus opex per t times the
   * deployment in t.
   */
  lemma {:induction false} CostTermUnits(m: MaccModel, d: Decision, i: string, t: int, capexPerKt: real, opexPerT: real)
    requires WellFormed(m) && Defined(m, d) && i in m.techs && t in m.years
    requires m.cells[(i, t)].capexUsdPerT * 1000.0 == capexPerKt && m.cells[(i, t)].opexUsdPerT == opexPerT
    ensures CostTerm(m, d, i, t) == m.df[t] * (capexPerKt * d.deployment[(i, t)] + opexPerT * (d.deployment[(i, t)] * 1000.0))
  {
    var c := m.cells[(i, t)];
    var x := d.deployment[(i, t)];
    assert c.capexUsdPerT * x * 1000.0 == (c.capexUsdPerT * 1000.0) * x;
    assert c.opexUsdPerT * x * 1000.0 == opexPerT * (x * 1000.0);
  }

  predicate NonNegativeCosts(m: MaccModel)
    requires WellFormed(m)
  {
    (forall i, t :: i in m.techs && t in m.years ==>
       m.cells[(i, t)].capexUsdPerT >= 0.0 && m.cells[(i, t)].opexUsdPerT >= 0.0) &&
    (forall t :: t in m.years ==> m.df[t] >= 0.0) &&
    m.slackPenalty >= 0.0
  }

  lemma {:induction false} CostTermNonNegative(m: MaccModel, d: Decision, i: string, t: int)
    requires WellFormed(m) && Defined(m, d) && NonNegative(m, d) && NonNegativeCosts(m)
    requires i in m.techs && t in m.years
    ensures CostTerm(m, d, i, t) >= 0.0
  {
    var c := m.cells[(i, t)];
    var x := d.deployment[(i, t)];
    MulNonNegative(c.capexUsdPerT, x);
    MulNonNegative(c.opexUsdPerT, x);
    MulNonNegative(m.df[t], c.capexUsdPerT * x * 1000.0 + c.opexUsdPerT * x * 1000.0);
  }

  lemma {:induction false} TechCostNonNegative(m: MaccModel, d: Decision, i: string, ys: seq<int>)
    requires WellFormed(m) && Defined(m, d) && NonNegative(m, d) && NonNegativeCosts(m)
    requires i in m.techs && forall t :: t in ys ==> t in m.years
    ensures TechCost(m, d, i, ys) >= 0.0
  {
    if |ys| > 0 {
      TechCostNonNegative(m, d, i, ys[..|ys| - 1]);
      CostTermNonNegative(m, d, i, ys[|ys| - 1]);
    }
  }

  lemma {:induction false} CostStreamNonNegative(m: MaccModel, d: Decision, techs: seq<string>)
    requires WellFormed(m) && Defined(m, d) && NonNegative(m, d) && NonNegativeCosts(m)
    requires forall i :: i in techs ==> i in m.techs
    ensures CostStream(m, d, techs) >= 0.0
  {
    if |techs| > 0 {
      CostStreamNonNegative(m, d, techs[..|techs| - 1]);
      TechCostNonNegative(m, d, techs[|techs| - 1], m.years);
    }
  }

  lemma {:induction false} PenaltyStreamNonNegative(m: MaccModel, d: Decision, ys: seq<int>)
    requires WellFormed(m) && Defined(m, d) && NonNegative(m, d) && NonNegativeCosts(m)
    requires forall t :: t in ys ==> t in m.years
    ensures PenaltyStream(m, d, ys) >= 0.0
  {
    if |ys| > 0 {
      var t := ys[|ys| - 1];
      PenaltyStreamNonNegative(m, d, ys[..|ys| - 1]);
      MulNonNegative(m.df[t], m.slackPenalty);
      MulNonNegative(m.df[t] * m.slackPenalty, d.shortfall[t]);
    }
  }

  /** With non-negative costs and factors every admissible decision costs at least 0. */
  lemma {:induction false} ObjectiveNonNegative(m: MaccModel, d: Decision)
    requires WellFormed(m) && Defined(m, d) && NonNegative(m, d) && NonNegativeCosts(m)
    ensures Objective(m, d) >= 0.0
  {
    CostStreamNonNegative(m, d, m.techs);
    PenaltyStreamNonNegative(m, d, m.years);
  }

  lemma {:induction false} IdleTechCostsNothing(m: MaccModel, d: Decision, i: string, ys: seq<int>)
    requires WellFormed(m) && Defined(m, d) && i in m.techs && forall t :: t in ys ==> t in m.years
    requires forall t :: t in m.years ==> d.deployment[(i, t)] == 0.0
    ensures TechCost(m, d, i, ys) == 0.0
  {
    if |ys| > 0 {
      IdleTechCostsNothing(m, d, i, ys[..|ys| - 1]);
    }
  }

  lemma {:induction false} IdleStreamCostsNothing(m: MaccModel, d: Decision, techs: seq<string>)
    requires WellFormed(m) && Defined(m, d) && forall i :: i in techs ==> i in m.techs
    requires forall i, t :: i in m.techs && t in m.years ==> d.deployment[(i, t)] == 0.0
    ensures CostStream(m, d, techs) == 0.0
  {
    if |techs| > 0 {
      IdleStreamCostsNothing(m, d, techs[..|techs| - 1]);
      IdleTechCostsNothing(m, d, techs[|techs| - 1], m.years);
    }
  }

  /** A decision that deploys nothing pays only the shortfall penalty. */
  lemma {:induction false} IdleDecisionPaysOnlyPenalty(m: MaccModel, d: Decision)
    requires WellFormed(m) && Defined(m, d)
    requires forall i, t :: i in m.techs && t in m.years ==> d.deployment[(i, t)] == 0.0
    ensures Objective(m, d) == if m.allowSlack then PenaltyStream(m, d, m.years) else 0.0
  {
    IdleStreamCostsNothing(m, d, m.techs);
  }

  // ------------------------------------------------------------- summary

  /** The sizes and populated-parameter counts `get_model_summary` reports. */
  datatype ModelSummary = ModelSummary(
    years: nat, technologies: nat, processes: nat,
    deployment: nat, abatement: nat, shortfall: nat,
    abatementCalc: nat, capacityLimit: nat, rampConstraint: int, targetConstraint: nat,
    capexPopulated: nat, activityPopulated: nat)

  /** The timeline years that carry a ramp constraint: all but the first. */
  function RampYears(years: seq<int>, first: int): (r: seq<int>)
    ensures forall t :: t in r <==> t in years && t != first
  {
    if |years| == 0 then []
    else
      var rest := RampYears(years[..|years| - 1], first);
      assert forall t :: t in years <==> t in years[..|years| - 1] || t == years[|years| - 1];
      if years[|years| - 1] != first then rest + [years[|years| - 1]] else rest
  }

  /** In a timeline without repeats exactly one year, the first, has no ramp constraint. */
  lemma {:induction false} RampYearsCount(years: seq<int>, first: int)
    requires Distinct(years) && first in years
    ensures |RampYears(years, first)| == |years| - 1
  {
    var init := years[..|years| - 1];
    var last := years[|years| - 1];
    assert Distinct(init);
    if last == first {
      assert first !in init;
      RampYearsAbsent(init, first);
    } else {
      assert first in init;
      RampYearsCount(init, first);
    }
  }

  lemma {:induction false} RampYearsAbsent(years: seq<int>, first: int)
    requires first !in years
    ensures RampYears(years, first) == years
  {
    if |years| > 0 {
      RampYearsAbsent(years[..|years| - 1], first);
      assert years[..|years| - 1] + [years[|years| - 1]] == years;
    }
  }

  function Summarize(m: MaccModel): (s: ModelSummary)
    ensures s.deployment == s.abatement == s.abatementCalc == s.capacityLimit == s.technologies * s.years
    ensures s.rampConstraint == s.technologies * (s.years - 1)
    ensures s.targetConstraint == s.years && s.shortfall == if m.allowSlack then s.years else 0
    ensures s.years == |m.years| && s.technologies == |m.techs| && s.processes == |m.processes|
    ensures s.capexPopulated <= |m.cells| && s.activityPopulated <= |m.cells|
  {
    var n := |m.techs| * |m.years|;
    var capex := set k | k in m.cells && m.cells[k].capexUsdPerT > 0.0;
    var activity := set k | k in m.cells && m.cells[k].activityKt > 0.0;
    assert capex <= m.cells.Keys && activity <= m.cells.Keys;
    SubsetCard(capex, m.cells.Keys);
    SubsetCard(activity, m.cells.Keys);
    ModelSummary(|m.years|, |m.techs|, |m.processes|, n, n, if m.allowSlack then |m.years| else 0,
                 n, n, |m.techs| * (|m.years| - 1), |m.years|, |capex|, |activity|)
  }

  lemma {:induction false} SubsetCard<T>(a: set<T>, b: set<T>)
    requires a <= b
    ensures |a| <= |b|
  {
    if a != {} {
      var x :| x in a;
      SubsetCard(a - {x}, b - {x});
    }
  }

  /** For a timeline without repeats the reported ramp count is one constraint per technology and non-first year. */
  lemma {:induction false} RampConstraintCount(m: MaccModel)
    requires WellFormed(m) && Distinct(m.years)
    ensures Summarize(m).rampConstraint == |m.techs| * |RampYears(m.years, m.firstYear)|
  {
    RampYearsCount(m.years, m.firstYear);
  }

  class MaccModelBuilder {
    const scenario: Scenario.EmissionsScenario
    const portfolio: Portfolio.TechPortfolio
    var model: Option<MaccModel>

    constructor (scenario: Scenario.EmissionsScenario, portfolio: Portfolio.TechPortfolio)
      ensures this.scenario == scenario && this.portfolio == portfolio && model == None
    {
      this.scenario := scenario;
      this.portfolio := portfolio;
      model := None;
    }

    /**
     * `build_model(allow_slack=True, slack_penalty=1e15, discount_rate=0.05)`:
     * the parameter and grouping loops run as the source's do, and the model
     * is stored only when building succeeds.
     */
    method BuildModel(allowSlack: bool, slackPenalty: real, discountRate: real) returns (r: Result<MaccModel>)
      requires portfolio.Valid()
      modifies this
      ensures r == Build(scenario, portfolio.technologies, allowSlack, slackPenalty, discountRate)
      ensures model == if r.Ok? then Some(r.value) else old(model)
    {
      var techs := portfolio.technologies;
      var cells := TechnologyParameters(Cells(scenario.baseline), techs, scenario.timeline);
      if cells.Err? {
        return Err(AttributeError);
      }
      var groups := ExclusivityGroups(techs);
      r := Assemble(scenario, techs, cells.value, groups, allowSlack, slackPenalty, discountRate);
      if r.Ok? {
        model := Some(r.value);
      }
    }

    /** `get_model_summary`: None where the source returns its "Model not built yet" error entry. */
    function GetModelSummary(): (r: Option<ModelSummary>)
      reads this
      ensures r.None? <==> model.None?
      ensures r.Some? ==> r.value == Summarize(model.value)
    {
      if model.None? then None else Some(Summarize(model.value))
    }
  }
}
