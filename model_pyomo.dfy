/**
 * The legacy Pyomo deployment LP: the parameter maps `build_model` derives
 * from its inputs, each constraint family as a predicate over a candidate
 * decision (build, share, abate, shortfall), the NPV objective, and the
 * ordered solver fallback of `solve_model`. Nothing is solved: the lemmas
 * state what every decision satisfying the constraints has in common.
 */
module ModelPyomo {

  import opened Wrappers
  import opened Reals
  import opened Vintage
  import Finance
  import Ints
  import Strings

  // ------------------------------------------------------------- parameters

  /** One technology's yearly series (None where the source value is None) and its scalars. */
  datatype TechParams = TechParams(
    activity: map<int, Option<real>>,
    cap: map<int, Option<real>>,
    abat: map<int, Option<real>>,
    capex: map<int, Option<real>>,
    fixed: map<int, Option<real>>,
    varx: map<int, Option<real>>,
    life: int,
    start: int,
    ramp: real)

  datatype SeriesName = Activity | Cap | Abat | Capex | Fixed | Varx

  function SeriesOf(p: TechParams, s: SeriesName): map<int, Option<real>>
  {
    match s
    case Activity => p.activity
    case Cap => p.cap
    case Abat => p.abat
    case Capex => p.capex
    case Fixed => p.fixed
    case Varx => p.varx
  }

  /** Every technology has parameters with every year in every series; otherwise a lookup raises KeyError. */
  predicate HasAllParams(params: map<string, TechParams>, techIds: seq<string>, years: seq<int>)
  {
    forall i :: i in techIds ==>
      i in params && forall s: SeriesName, t :: t in years ==> t in SeriesOf(params[i], s)
  }

  /** `{(i, t): float(params[i][series][t] or 0.0)}`: a None entry becomes 0. */
  function ParamTable(params: map<string, TechParams>, techIds: seq<string>, years: seq<int>, s: SeriesName): (tbl: Table)
    requires HasAllParams(params, techIds, years)
    ensures Covers(tbl, techIds, years)
    ensures forall i, t :: i in techIds && t in years ==> tbl[(i, t)] == SeriesOf(params[i], s)[t].GetOr(0.0)
  {
    map k | k in Grid(techIds, years) :: SeriesOf(params[k.0], s)[k.1].GetOr(0.0)
  }

  /**
   * `req[t] = max(0, baseline - target_map.get(t, baseline)) * 1e6` (t CO2):
   * never negative, 0 for a year without a target, positive exactly when the
   * year's target is below the baseline, and then the gap in tonnes.
   */
  function Requirement(baselineMt: real, targetMap: map<int, real>, t: int): (r: real)
    ensures r >= 0.0
    ensures t !in targetMap ==> r == 0.0
    ensures r > 0.0 <==> t in targetMap && targetMap[t] < baselineMt
    ensures r > 0.0 ==> r == (baselineMt - targetMap[t]) * 1000000.0
  {
    Max(0.0, baselineMt - (if t in targetMap then targetMap[t] else baselineMt)) * 1000000.0
  }

  // --------------------------------------------------------- groups, pairs

  /** `[g for g in G if g in tech_ids]`. */
  function KnownMembers(g: seq<string>, techIds: seq<string>): (r: seq<string>)
    ensures forall x :: x in r <==> x in g && x in techIds
  {
    if |g| == 0 then []
    else
      var rest := KnownMembers(g[..|g| - 1], techIds);
      assert forall x :: x in g <==> x in g[..|g| - 1] || x == g[|g| - 1];
      if g[|g| - 1] in techIds then rest + [g[|g| - 1]] else rest
  }

  /** The registered groups `(k, members)`: those with a known member, with the unknown ones dropped. */
  function KeptGroups(groups: seq<seq<string>>, techIds: seq<string>): seq<(int, seq<string>)>
  {
    if |groups| == 0 then []
    else
      var k := |groups| - 1;
      var members := KnownMembers(groups[k], techIds);
      KeptGroups(groups[..k], techIds) + (if |members| == 0 then [] else [(k, members)])
  }

  /** The registered couplings `(k, (primary, secondary))`: those naming two known technologies. */
  function KeptCouplings(depends: seq<(string, string)>, techIds: seq<string>): seq<(int, (string, string))>
  {
    if |depends| == 0 then []
    else
      var k := |depends| - 1;
      var (p, s) := depends[k];
      KeptCouplings(depends[..k], techIds) + (if p in techIds && s in techIds then [(k, (p, s))] else [])
  }

  /**
   * A group is registered under its index exactly when one of its members
   * is a known technology, and then with exactly its known members.
   */
  lemma {:induction false} KeptGroupsSpec(groups: seq<seq<string>>, techIds: seq<string>)
    ensures forall e :: e in KeptGroups(groups, techIds) ==>
              0 <= e.0 < |groups| && e.1 == KnownMembers(groups[e.0], techIds) && |e.1| > 0
    ensures forall k :: 0 <= k < |groups| && |KnownMembers(groups[k], techIds)| > 0 ==>
              (k, KnownMembers(groups[k], techIds)) in KeptGroups(groups, techIds)
  {
    if |groups| > 0 {
      var k := |groups| - 1;
      KeptGroupsSpec(groups[..k], techIds);
      assert forall j :: 0 <= j < k ==> groups[..k][j] == groups[j];
    }
  }

  /** A coupling is registered under its index exactly when both of its technologies are known. */
  lemma {:induction false} KeptCouplingsSpec(depends: seq<(string, string)>, techIds: seq<string>)
    ensures forall e :: e in KeptCouplings(depends, techIds) ==>
              0 <= e.0 < |depends| && e.1 == depends[e.0] && e.1.0 in techIds && e.1.1 in techIds
    ensures forall k :: 0 <= k < |depends| && depends[k].0 in techIds && depends[k].1 in techIds ==>
              (k, depends[k]) in KeptCouplings(depends, techIds)
  {
    if |depends| > 0 {
      var k := |depends| - 1;
      KeptCouplingsSpec(depends[..k], techIds);
      assert forall j :: 0 <= j < k ==> depends[..k][j] == depends[j];
    }
  }

  /** The group-registration loop of `build_model`. */
  method RegisterGroups(groups: seq<seq<string>>, techIds: seq<string>) returns (names: seq<(int, seq<string>)>)
    ensures names == KeptGroups(groups, techIds)
  {
    names := [];
    var k := 0;
    while k < |groups|
      invariant 0 <= k <= |groups|
      invariant names == KeptGroups(groups[..k], techIds)
    {
      var g := KnownMembers(groups[k], techIds);
      assert groups[..k + 1][..k] == groups[..k];
      if |g| > 0 {
        names := names + [(k, g)];
      }
      k := k + 1;
    }
    assert groups[..k] == groups;
  }

  /** The coupling-registration loop of `build_model`. */
  method RegisterCouplings(depends: seq<(string, string)>, techIds: seq<string>)
    returns (names: seq<(int, (string, string))>)
    ensures names == KeptCouplings(depends, techIds)
  {
    names := [];
    var k := 0;
    while k < |depends|
      invariant 0 <= k <= |depends|
      invariant names == KeptCouplings(depends[..k], techIds)
    {
      var (p, s) := depends[k];
      assert depends[..k + 1][..k] == depends[..k];
      if p in techIds && s in techIds {
        names := names + [(k, (p, s))];
      }
      k := k + 1;
    }
    assert depends[..k] == depends;
  }

  // ------------------------------------------------------------ the model

  datatype LpModel = LpModel(
    years: seq<int>,
    techs: seq<string>,
    activity: Table,
    cap: Table,
    abat: Table,
    capex: Table,
    fixed: Table,
    varx: Table,
    life: map<string, int>,
    start: map<string, int>,
    ramp: map<string, real>,
    req: map<int, real>,
    df: map<int, real>,
    groups: seq<(int, seq<string>)>,
    couplings: seq<(int, (string, string))>,
    allowSlack: bool,
    slackPenalty: real)

  /** Every parameter is defined on the model's index sets. */
  predicate WellFormed(m: LpModel)
  {
    Covers(m.activity, m.techs, m.years) && Covers(m.cap, m.techs, m.years) &&
    Covers(m.abat, m.techs, m.years) && Covers(m.capex, m.techs, m.years) &&
    Covers(m.fixed, m.techs, m.years) && Covers(m.varx, m.techs, m.years) &&
    (forall i :: i in m.techs ==> i in m.life && i in m.start && i in m.ramp) &&
    (forall t :: t in m.years ==> t in m.req && t in m.df) &&
    (forall e :: e in m.groups ==> forall i :: i in e.1 ==> i in m.techs) &&
    (forall e :: e in m.couplings ==> e.1.0 in m.techs && e.1.1 in m.techs)
  }

  /** `base_year`, defaulting to `min(years)`; None where `min` of no years raises ValueError. */
  function BaseYear(years: seq<int>, baseYear: Option<int>): Option<int>
  {
    if baseYear.Some? then baseYear
    else if |years| == 0 then None
    else Some(Ints.MinInt(years))
  }

  function Scalars<T>(params: map<string, TechParams>, techIds: seq<string>, f: TechParams -> T): (r: map<string, T>)
    requires forall i :: i in techIds ==> i in params
    ensures forall i :: i in techIds ==> i in r && r[i] == f(params[i])
  {
    map i | i in techIds :: f(params[i])
  }

  /**
   * `build_model`: KeyError when a technology or a year is missing from the
   * parameters, ValueError when no base year is given and there are no
   * years, ZeroDivisionError when a discount factor divides by zero.
   */
  function BuildModel(years: seq<int>, baselineMt: real, targetMap: map<int, real>, techIds: seq<string>,
                      params: map<string, TechParams>, groups: seq<seq<string>>,
                      depends: seq<(string, string)>, allowSlack: bool, slackPenalty: real,
                      discountRate: real, baseYear: Option<int>): (r: Result<LpModel>)
    ensures !HasAllParams(params, techIds, years) ==> r == Err(KeyError)
    ensures HasAllParams(params, techIds, years) && baseYear.None? && |years| == 0 ==> r == Err(ValueError)
    ensures r.Ok? <==> HasAllParams(params, techIds, years) && BaseYear(years, baseYear).Some? &&
                       forall t :: t in years ==> Finance.DiscountFactor(discountRate, t, BaseYear(years, baseYear).value).Ok?
    ensures r.Ok? ==> WellFormed(r.value) && r.value.years == years && r.value.allowSlack == allowSlack
    ensures r.Ok? ==> forall i :: i in r.value.techs <==> i in techIds
    ensures r.Ok? ==> forall t :: t in years ==> r.value.req[t] == Requirement(baselineMt, targetMap, t)
    ensures r.Ok? ==> forall t :: t in years ==> Ok(r.value.df[t]) == Finance.DiscountFactor(discountRate, t, BaseYear(years, baseYear).value)
    ensures r.Ok? ==> r.value.groups == KeptGroups(groups, techIds) && r.value.couplings == KeptCouplings(depends, techIds)
  {
    if !HasAllParams(params, techIds, years) then Err(KeyError)
    else
      match BaseYear(years, baseYear)
      case None => Err(ValueError)
      case Some(base) =>
        match Finance.DiscountFactors(years, discountRate, base)
        case Err(e) => Err(e)
        case Ok(df) =>
          KeptGroupsSpec(groups, techIds);
          KeptCouplingsSpec(depends, techIds);
          Ok(LpModel(
            years, Strings.SortedUnique(techIds),
            ParamTable(params, techIds, years, Activity), ParamTable(params, techIds, years, Cap),
            ParamTable(params, techIds, years, Abat), ParamTable(params, techIds, years, Capex),
            ParamTable(params, techIds, years, Fixed), ParamTable(params, techIds, years, Varx),
            Scalars(params, techIds, (p: TechParams) => p.life),
            Scalars(params, techIds, (p: TechParams) => p.start),
            Scalars(params, techIds, (p: TechParams) => p.ramp),
            map t | t in years :: Requirement(baselineMt, targetMap, t),
            df, KeptGroups(groups, techIds), KeptCouplings(depends, techIds), allowSlack, slackPenalty))
  }

  /** The discount factor is exactly 1 in the base year, whenever the base year is modelled. */
  lemma {:induction false} DiscountIsOneAtBase(years: seq<int>, baselineMt: real, targetMap: map<int, real>, techIds: seq<string>,
                            params: map<string, TechParams>, groups: seq<seq<string>>,
                            depends: seq<(string, string)>, allowSlack: bool, slackPenalty: real,
                            discountRate: real, baseYear: Option<int>)
    requires BuildModel(years, baselineMt, targetMap, techIds, params, groups, depends,
                        allowSlack, slackPenalty, discountRate, baseYear).Ok?
    requires BaseYear(years, baseYear).value in years
    ensures var m := BuildModel(years, baselineMt, targetMap, techIds, params, groups, depends,
                                allowSlack, slackPenalty, discountRate, baseYear).value;
            m.df[BaseYear(years, baseYear).value] == 1.0
  {
    var base := BaseYear(years, baseYear).value;
    if 1.0 + discountRate == 0.0 {
      assert Finance.DiscountFactor(discountRate, base, base) == Ok(1.0);
    } else {
      Finance.DiscountAtBase(discountRate, base);
    }
  }

  // -------------------------------------------------------- the decision

  datatype Decision = Decision(build: Table, share: Table, abate: Table, shortfall: map<int, real>)

  predicate Defined(m: LpModel, d: Decision)
  {
    Covers(d.build, m.techs, m.years) && Covers(d.share, m.techs, m.years) &&
    Covers(d.abate, m.techs, m.years) && (forall t :: t in m.years ==> t in d.shortfall)
  }

  /** The variables are `NonNegativeReals`. */
  predicate NonNegative(m: LpModel, d: Decision)
    requires Defined(m, d)
  {
    (forall i, t :: i in m.techs && t in m.years ==>
       d.build[(i, t)] >= 0.0 && d.share[(i, t)] >= 0.0 && d.abate[(i, t)] >= 0.0) &&
    (forall t :: t in m.years ==> d.shortfall[t] >= 0.0)
  }

  /** Stock: the share in t is the sum of the builds still alive in t. */
  predicate StockRule(m: LpModel, d: Decision)
    requires WellFormed(m) && Defined(m, d)
  {
    forall i, t :: i in m.techs && t in m.years ==>
      d.share[(i, t)] == Stock(d.build, i, m.years, t, m.life[i])
  }

  /** Start: nothing is built before the start year; no constraint from then on. */
  predicate StartRule(m: LpModel, d: Decision)
    requires WellFormed(m) && Defined(m, d)
  {
    forall i, t :: i in m.techs && t in m.years && t < m.start[i] ==> d.build[(i, t)] == 0.0
  }

  /** Ramp: at most `ramp` is built in any year. */
  predicate RampRule(m: LpModel, d: Decision)
    requires WellFormed(m) && Defined(m, d)
  {
    forall i, t :: i in m.techs && t in m.years ==> d.build[(i, t)] <= m.ramp[i]
  }

  /** Cap: the share stays within the adoption cap. */
  predicate CapRule(m: LpModel, d: Decision)
    requires WellFormed(m) && Defined(m, d)
  {
    forall i, t :: i in m.techs && t in m.years ==> d.share[(i, t)] <= m.cap[(i, t)]
  }

  /** Abat: abatement is share times activity times the abatement factor. */
  predicate AbatRule(m: LpModel, d: Decision)
    requires WellFormed(m) && Defined(m, d)
  {
    forall i, t :: i in m.techs && t in m.years ==>
      d.abate[(i, t)] == d.share[(i, t)] * m.activity[(i, t)] * m.abat[(i, t)]
  }

  /** The year's total abatement over the technologies. */
  function YearAbatement(m: LpModel, d: Decision, t: int): real
    requires Defined(m, d) && t in m.years
  {
    Sum(Row(d.abate, m.techs, t))
  }

  /** Target: abatement, plus the shortfall when slack is allowed, covers the requirement. */
  predicate TargetRule(m: LpModel, d: Decision)
    requires WellFormed(m) && Defined(m, d)
  {
    forall t :: t in m.years ==>
      (if m.allowSlack then YearAbatement(m, d, t) + d.shortfall[t] else YearAbatement(m, d, t)) >= m.req[t]
  }

  /** Group_k: the shares of a registered group sum to at most 1 every year. */
  predicate GroupRule(m: LpModel, d: Decision)
    requires WellFormed(m) && Defined(m, d)
  {
    forall e, t :: e in m.groups && t in m.years ==> Sum(Row(d.share, e.1, t)) <= 1.0
  }

  /** Couple_k: a primary's share never exceeds its secondary's. */
  predicate CoupleRule(m: LpModel, d: Decision)
    requires WellFormed(m) && Defined(m, d)
  {
    forall e, t :: e in m.couplings && t in m.years ==> d.share[(e.1.0, t)] <= d.share[(e.1.1, t)]
  }

  predicate Feasible(m: LpModel, d: Decision)
  {
    WellFormed(m) && Defined(m, d) && NonNegative(m, d) &&
    StockRule(m, d) && StartRule(m, d) && RampRule(m, d) && CapRule(m, d) &&
    AbatRule(m, d) && TargetRule(m, d) && GroupRule(m, d) && CoupleRule(m, d)
  }

  // ------------------------------------------------------------- lemmas

  /** A technology holds no share before its start year, whatever it builds later. */
  lemma {:induction false} NoShareBeforeStart(m: LpModel, d: Decision, i: string, t: int)
    requires Feasible(m, d)
    requires i in m.techs && t in m.years && t < m.start[i]
    ensures d.share[(i, t)] == 0.0
  {
    forall tau | tau in Alive(m.years, t, m.life[i])
      ensures d.build[(i, tau)] == 0.0
    {
    }
    StockOfIdleWindow(d.build, i, m.years, t, m.life[i]);
  }

  /**
   * The share is at most `ramp` per alive vintage, and, the years being
   * distinct, at most `ramp * life`: a build counts for `life` years at most.
   * The two requires on the decision are what NonNegative, RampRule and
   * StockRule say about technology i.
   */
  lemma {:induction false} ShareBoundedByRamp(m: LpModel, d: Decision, i: string, t: int)
    requires i in m.techs && t in m.years && i in m.life && i in m.ramp && (i, t) in d.share
    requires forall tau :: tau in m.years ==> (i, tau) in d.build && 0.0 <= d.build[(i, tau)] <= m.ramp[i]
    requires d.share[(i, t)] == Stock(d.build, i, m.years, t, m.life[i])
    ensures d.share[(i, t)] <= m.ramp[i] * |Alive(m.years, t, m.life[i])| as real
    ensures Distinct(m.years) && m.life[i] >= 0 ==> d.share[(i, t)] <= m.ramp[i] * m.life[i] as real
  {
    ShareOfStock(d.share[(i, t)], d.build, i, m.years, t, m.life[i], m.ramp[i]);
  }

  /** StockBoundedByRate, stated of a value equal to the stock. */
  lemma {:induction false} ShareOfStock(share: real, build: Table, i: string, years: seq<int>, t: int, life: int, rate: real)
    requires forall tau :: tau in years ==> (i, tau) in build && 0.0 <= build[(i, tau)] <= rate
    requires t in years && share == Stock(build, i, years, t, life)
    ensures share <= Times(rate, |Alive(years, t, life)|)
    ensures Distinct(years) && life >= 0 ==> share <= Times(rate, life)
  {
    StockBoundedByRate(build, i, years, t, life, rate);
  }

  /** `rate * n`, named so that the product is one term for the solver. */
  function Times(rate: real, n: int): (p: real)
    ensures p == rate * n as real
  {
    rate * n as real
  }

  /** Without slack, each year's abatement reaches max(0, baseline - target) in tonnes. */
  lemma {:induction false} TargetMetWithoutSlack(years: seq<int>, baselineMt: real, targetMap: map<int, real>, techIds: seq<string>,
                              params: map<string, TechParams>, groups: seq<seq<string>>,
                              depends: seq<(string, string)>, slackPenalty: real,
                              discountRate: real, baseYear: Option<int>, d: Decision, t: int)
    requires BuildModel(years, baselineMt, targetMap, techIds, params, groups, depends,
                        false, slackPenalty, discountRate, baseYear).Ok?
    requires Feasible(BuildModel(years, baselineMt, targetMap, techIds, params, groups, depends,
                                 false, slackPenalty, discountRate, baseYear).value, d)
    requires t in years
    ensures var m := BuildModel(years, baselineMt, targetMap, techIds, params, groups, depends,
                                false, slackPenalty, discountRate, baseYear).value;
            YearAbatement(m, d, t) >= Requirement(baselineMt, targetMap, t) >= 0.0
  {
  }

  /** Every registered group member holds a share of at most 1. */
  lemma {:induction false} GroupMemberShareAtMostOne(m: LpModel, d: Decision, e: (int, seq<string>), i: string, t: int)
    requires Feasible(m, d)
    requires e in m.groups && i in e.1 && t in m.years
    ensures d.share[(i, t)] <= 1.0
  {
    var row := Row(d.share, e.1, t);
    var k :| 0 <= k < |e.1| && e.1[k] == i;
    forall j | 0 <= j < |row|
      ensures row[j] >= 0.0
    {
      assert e.1[j] in e.1;
    }
    ElementAtMostSum(row, k);
  }

  /**
   * Couplings chain: p <= s <= q for registered pairs (p, s) and (s, q), and a
   * primary with a positive share forces a positive share on its secondary.
   */
  lemma {:induction false} CouplingChain(m: LpModel, d: Decision, e1: (int, (string, string)), e2: (int, (string, string)), t: int)
    requires Feasible(m, d)
    requires e1 in m.couplings && e2 in m.couplings && t in m.years
    ensures d.share[(e1.1.0, t)] > 0.0 ==> d.share[(e1.1.1, t)] > 0.0
    ensures e1.1.1 == e2.1.0 ==> d.share[(e1.1.0, t)] <= d.share[(e2.1.1, t)]
  {
  }

  // ---------------------------------------------------------- objective

  /** One (technology, year) cost: df * (capex/life + fixed + var) * share * activity, capital straight-line. */
  function CostTerm(m: LpModel, d: Decision, i: string, t: int): real
    requires WellFormed(m) && Defined(m, d) && i in m.techs && t in m.years && m.life[i] != 0
  {
    m.df[t] * (m.capex[(i, t)] / m.life[i] as real + m.fixed[(i, t)] + m.varx[(i, t)])
      * d.share[(i, t)] * m.activity[(i, t)]
  }

  function TechCost(m: LpModel, d: Decision, i: string, ys: seq<int>): real
    requires WellFormed(m) && Defined(m, d) && i in m.techs && m.life[i] != 0
    requires forall t :: t in ys ==> t in m.years
  {
    if |ys| == 0 then 0.0
    else TechCost(m, d, i, ys[..|ys| - 1]) + CostTerm(m, d, i, ys[|ys| - 1])
  }

  function CostStream(m: LpModel, d: Decision, techs: seq<string>): real
    requires WellFormed(m) && Defined(m, d)
    requires forall i :: i in techs ==> i in m.techs && m.life[i] != 0
  {
    if |techs| == 0 then 0.0
    else CostStream(m, d, techs[..|techs| - 1]) + TechCost(m, d, techs[|techs| - 1], m.years)
  }

  function PenaltyStream(m: LpModel, d: Decision, ys: seq<int>): real
    requires WellFormed(m) && Defined(m, d)
    requires forall t :: t in ys ==> t in m.years
  {
    if |ys| == 0 then 0.0
    else
      var t := ys[|ys| - 1];
      assert t in ys;
      PenaltyStream(m, d, ys[..|ys| - 1]) + m.df[t] * m.slackPenalty * d.shortfall[t]
  }

  /**
   * The NPV objective. A zero lifetime leaves the straight-line capital
   * charge undefined, reported as ZeroDivisionError.
   */
  function Objective(m: LpModel, d: Decision): (r: Result<real>)
    requires WellFormed(m) && Defined(m, d)
    ensures r.Err? <==> |m.years| > 0 && exists i :: i in m.techs && m.life[i] == 0
  {
    if |m.years| > 0 && exists i :: i in m.techs && m.life[i] == 0 then Err(ZeroDivisionError)
    else if |m.years| == 0 then Ok(0.0)
    else Ok(CostStream(m, d, m.techs) + (if m.allowSlack then PenaltyStream(m, d, m.years) else 0.0))
  }

  /** Non-negative costs and activity, positive lifetimes and factors: the objective is non-negative. */
  predicate NonNegativeCosts(m: LpModel)
    requires WellFormed(m)
  {
    (forall i, t :: i in m.techs && t in m.years ==>
       m.capex[(i, t)] >= 0.0 && m.fixed[(i, t)] >= 0.0 && m.varx[(i, t)] >= 0.0 && m.activity[(i, t)] >= 0.0) &&
    (forall i :: i in m.techs ==> m.life[i] > 0) &&
    (forall t :: t in m.years ==> m.df[t] >= 0.0) &&
    m.slackPenalty >= 0.0
  }

  lemma {:induction false} CostTermNonNegative(m: LpModel, d: Decision, i: string, t: int)
    requires WellFormed(m) && Defined(m, d) && NonNegative(m, d) && NonNegativeCosts(m)
    requires i in m.techs && t in m.years
    ensures CostTerm(m, d, i, t) >= 0.0
  {
    var unit := m.capex[(i, t)] / m.life[i] as real + m.fixed[(i, t)] + m.varx[(i, t)];
    assert m.capex[(i, t)] / m.life[i] as real >= 0.0;
    MulNonNegative(m.df[t], unit);
    MulNonNegative(m.df[t] * unit, d.share[(i, t)]);
    MulNonNegative(m.df[t] * unit * d.share[(i, t)], m.activity[(i, t)]);
  }

  lemma {:induction false} TechCostNonNegative(m: LpModel, d: Decision, i: string, ys: seq<int>)
    requires WellFormed(m) && Defined(m, d) && NonNegative(m, d) && NonNegativeCosts(m)
    requires i in m.techs && forall t :: t in ys ==> t in m.years
    ensures TechCost(m, d, i, ys) >= 0.0
  {
    if |ys| > 0 {
      TechCostNonNegative(m, d, i, ys[..|ys| - 1]);
      CostTermNonNegative(m, d, i, ys[|ys| - 1]);
    }
  }

  lemma {:induction false} CostStreamNonNegative(m: LpModel, d: Decision, techs: seq<string>)
    requires WellFormed(m) && Defined(m, d) && NonNegative(m, d) && NonNegativeCosts(m)
    requires forall i :: i in techs ==> i in m.techs
    ensures CostStream(m, d, techs) >= 0.0
  {
    if |techs| > 0 {
      CostStreamNonNegative(m, d, techs[..|techs| - 1]);
      TechCostNonNegative(m, d, techs[|techs| - 1], m.years);
    }
  }

  lemma {:induction false} PenaltyStreamNonNegative(m: LpModel, d: Decision, ys: seq<int>)
    requires WellFormed(m) && Defined(m, d) && NonNegative(m, d) && NonNegativeCosts(m)
    requires forall t :: t in ys ==> t in m.years
    ensures PenaltyStream(m, d, ys) >= 0.0
  {
    if |ys| > 0 {
      var t := ys[|ys| - 1];
      PenaltyStreamNonNegative(m, d, ys[..|ys| - 1]);
      MulNonNegative(m.df[t], m.slackPenalty);
      MulNonNegative(m.df[t] * m.slackPenalty, d.shortfall[t]);
    }
  }

  /** With non-negative costs every admissible decision has a defined, non-negative cost. */
  lemma {:induction false} ObjectiveNonNegative(m: LpModel, d: Decision)
    requires WellFormed(m) && Defined(m, d) && NonNegative(m, d) && NonNegativeCosts(m)
    ensures Objective(m, d).Ok? && Objective(m, d).value >= 0.0
  {
    if |m.years| > 0 {
      CostStreamNonNegative(m, d, m.techs);
      PenaltyStreamNonNegative(m, d, m.years);
    }
  }

  // ------------------------------------------------------------ solving

  /** What one backend does when asked: no factory, an exception, or a result. */
  datatype Attempt = NoFactory | Raises | Solves

  function Candidates(solver: string): (cs: seq<string>)
    ensures solver != "auto" ==> cs == [solver]
    ensures solver == "auto" ==> cs == ["highs", "glpk", "cbc"]
  {
    if solver == "auto" then ["highs", "glpk", "cbc"] else [solver]
  }

  /**
   * `solve_model`: the candidates are tried in order, skipping an
   * unavailable factory and an exception alike; the first that solves is
   * returned, and RuntimeError is raised when none does.
   */
  method SolveModel(solver: string, attempt: string -> Attempt) returns (r: Result<string>)
    ensures r.Ok? <==> exists c :: c in Candidates(solver) && attempt(c) == Solves
    ensures r.Ok? ==> r.value in Candidates(solver) && attempt(r.value) == Solves
    ensures r.Ok? ==> forall k :: 0 <= k < |Candidates(solver)| && Candidates(solver)[k] == r.value ==>
                        forall j :: 0 <= j < k ==> attempt(Candidates(solver)[j]) != Solves
    ensures r.Err? ==> r.error == RuntimeError
  {
    var candidates := Candidates(solver);
    var k := 0;
    while k < |candidates|
      invariant 0 <= k <= |candidates|
      invariant forall j :: 0 <= j < k ==> attempt(candidates[j]) != Solves
    {
      var s := candidates[k];
      match attempt(s) {
        case NoFactory =>
        case Raises =>
        case Solves =>
          assert forall j :: 0 <= j < |candidates| && candidates[j] == s ==> j >= k || candidates[j] == s;
          r := Ok(s);
          CandidatesDistinct(solver);
          return;
      }
      k := k + 1;
    }
    r := Err(RuntimeError);
  }

  lemma {:induction false} CandidatesDistinct(solver: string)
    ensures forall j, k :: 0 <= j < k < |Candidates(solver)| ==> Candidates(solver)[j] != Candidates(solver)[k]
  {
  }
}
