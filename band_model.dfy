/**
 * The fixed-band MACC model: the 2023 baseline is a fixed set of bands
 * (`TechGroup_Band`, e.g. `NCC_HT`), each with its own activity and emission
 * intensity. Alternatives may only substitute production inside the band they
 * target, so bands never transition into one another. This module covers the
 * baseline-band table, the scenario aggregated from it, the band-specific
 * alternatives, the fixed-band capacity rules and the per-band, per-technology
 * and cost rows of the output builders.
 */
module BandModel {

  import opened Wrappers
  import opened Reals
  import OrderedMaps
  import Technology
  import Scenario
  import Finance
  import Ints

  // ------------------------------------------------------- baseline bands

  /** A `TechBands_2023` row, which is also what `baseline_bands` stores for it. */
  datatype BandData = BandData(
    techGroup: string,
    band: string,
    activityKt: real,
    emissionIntensity: real,
    secGjPerT: real,
    processDescription: string,
    energySource: string)

  /** `f"{tech_group}_{band}"`. */
  function BandKey(techGroup: string, band: string): (k: string)
    ensures |k| == |techGroup| + 1 + |band|
    ensures k[..|techGroup|] == techGroup && k[|techGroup|] == '_' && k[|techGroup| + 1..] == band
  {
    techGroup + "_" + band
  }

  /** Two bands of one group get one key only when they are the same band. */
  lemma {:induction false} BandKeyInjective(group: string, b1: string, b2: string)
    requires BandKey(group, b1) == BandKey(group, b2)
    ensures b1 == b2
  {
    var k := BandKey(group, b1);
    assert b1 == k[|group| + 1..];
  }

  type Bands = OrderedMaps.Dict<string, BandData>

  /** The table after `baseline_bands[band_key] = row` for every row in order. */
  function LoadedBands(rows: seq<BandData>): Bands
  {
    if |rows| == 0 then []
    else
      var row := rows[|rows| - 1];
      OrderedMaps.Put(LoadedBands(rows[..|rows| - 1]), BandKey(row.techGroup, row.band), row)
  }

  lemma {:induction false} LoadedBandsStep(rows: seq<BandData>, i: nat)
    requires i < |rows|
    ensures LoadedBands(rows[..i + 1]) ==
            OrderedMaps.Put(LoadedBands(rows[..i]), BandKey(rows[i].techGroup, rows[i].band), rows[i])
  {
    assert rows[..i + 1][..i] == rows[..i];
  }

  /** The last row whose key is `key`: the one a later assignment leaves in the dict. */
  function LastRowFor(rows: seq<BandData>, key: string): Option<BandData>
  {
    if |rows| == 0 then None
    else if BandKey(rows[|rows| - 1].techGroup, rows[|rows| - 1].band) == key then Some(rows[|rows| - 1])
    else LastRowFor(rows[..|rows| - 1], key)
  }

  /**
   * Loading keys every band by `TechGroup_Band`, once: a key is present
   * exactly when some row has it, and it holds the last such row.
   */
  lemma {:induction false} LoadedBandsGet(rows: seq<BandData>, key: string)
    ensures OrderedMaps.Get(LoadedBands(rows), key) == LastRowFor(rows, key)
    ensures OrderedMaps.DistinctKeys(LoadedBands(rows))
  {
    if |rows| > 0 {
      var row := rows[|rows| - 1];
      LoadedBandsGet(rows[..|rows| - 1], key);
      OrderedMaps.PutGet(LoadedBands(rows[..|rows| - 1]), BandKey(row.techGroup, row.band), row, key);
      OrderedMaps.PutDistinct(LoadedBands(rows[..|rows| - 1]), BandKey(row.techGroup, row.band), row);
    }
  }

  /** A key has a last row exactly when some row carries it. */
  lemma {:induction false} LastRowForExists(rows: seq<BandData>, key: string)
    ensures LastRowFor(rows, key).Some? <==>
            exists i :: 0 <= i < |rows| && BandKey(rows[i].techGroup, rows[i].band) == key
    ensures LastRowFor(rows, key).Some? ==> LastRowFor(rows, key).value in rows
  {
    if |rows| > 0 {
      var init := rows[..|rows| - 1];
      LastRowForExists(init, key);
      if LastRowFor(init, key).Some? {
        assert LastRowFor(init, key).value in rows;
      }
      if exists i :: 0 <= i < |rows| && BandKey(rows[i].techGroup, rows[i].band) == key {
        var i :| 0 <= i < |rows| && BandKey(rows[i].techGroup, rows[i].band) == key;
        if i < |rows| - 1 {
          assert init[i] == rows[i];
        }
      }
    }
  }

  // ------------------------------------------------------- scenario

  /** `list(d.values())` restricted to one tech group, in dict order. */
  function GroupBands(bands: Bands, group: string): (g: Bands)
    ensures |g| <= |bands|
    ensures forall i :: 0 <= i < |g| ==> g[i].1.techGroup == group && g[i] in bands
    ensures forall p :: p in bands && p.1.techGroup == group ==> p in g
  {
    if |bands| == 0 then []
    else
      var init := GroupBands(bands[..|bands| - 1], group);
      assert forall p :: p in bands[..|bands| - 1] ==> p in bands;
      assert forall p :: p in bands ==> p in bands[..|bands| - 1] || p == bands[|bands| - 1];
      if bands[|bands| - 1].1.techGroup == group then init + [bands[|bands| - 1]] else init
  }

  /** The bands' activities (kt). */
  function Activities(g: Bands): (s: seq<real>)
  {
    seq(|g|, i requires 0 <= i < |g| => g[i].1.activityKt)
  }

  /** The bands' emissions (kt times t CO2 per t). */
  function Emissions(g: Bands): (s: seq<real>)
  {
    seq(|g|, i requires 0 <= i < |g| => g[i].1.activityKt * g[i].1.emissionIntensity)
  }

  /** `band_distribution`: each band's share of the group's production. */
  function Distribution(g: Bands, total: real): (d: OrderedMaps.Dict<string, real>)
    requires total != 0.0
    ensures OrderedMaps.Keys(d) == OrderedMaps.Keys(g)
  {
    seq(|g|, i requires 0 <= i < |g| => (g[i].0, g[i].1.activityKt / total))
  }

  /**
   * The `ProcessBaseline` of one tech group: production is the group's total
   * activity and intensity the emissions over that total. An empty group
   * divides zero by zero, which raises ZeroDivisionError.
   */
  function GroupBaseline(bands: Bands, group: string): (r: Result<Scenario.ProcessBaseline>)
    ensures r.Err? <==> Sum(Activities(GroupBands(bands, group))) == 0.0
    ensures r.Err? ==> r.error == ZeroDivisionError
    ensures r.Ok? ==> r.value.processType == group &&
                      r.value.productionKt == Sum(Activities(GroupBands(bands, group))) &&
                      OrderedMaps.Keys(r.value.bandDistribution) == OrderedMaps.Keys(GroupBands(bands, group))
  {
    var g := GroupBands(bands, group);
    var total := Sum(Activities(g));
    if total == 0.0 then Err(ZeroDivisionError)
    else Ok(Scenario.ProcessBaseline(group, total, Sum(Emissions(g)) / total, Distribution(g, total)))
  }

  /** The shares are the activities scaled by one over the total. */
  lemma {:induction false} DistributionIsScaled(g: Bands, total: real)
    requires total != 0.0
    ensures OrderedMaps.Values(Distribution(g, total)) == Scale(1.0 / total, Activities(g))
  {
    var shares := OrderedMaps.Values(Distribution(g, total));
    forall i | 0 <= i < |shares|
      ensures shares[i] == Scale(1.0 / total, Activities(g))[i]
    {
      ScaleAt(1.0 / total, Activities(g), i);
    }
  }

  /** The shares of a group's band distribution sum to one. */
  lemma {:induction false} DistributionSumsToOne(bands: Bands, group: string)
    requires GroupBaseline(bands, group).Ok?
    ensures Sum(OrderedMaps.Values(GroupBaseline(bands, group).value.bandDistribution)) == 1.0
  {
    var g := GroupBands(bands, group);
    var total := Sum(Activities(g));
    assert GroupBaseline(bands, group).value.bandDistribution == Distribution(g, total);
    DistributionSum(g, total);
    ReciprocalTimes(total);
  }

  lemma {:induction false} DistributionSum(g: Bands, total: real)
    requires total != 0.0
    ensures Sum(OrderedMaps.Values(Distribution(g, total))) == 1.0 / total * Sum(Activities(g))
  {
    DistributionIsScaled(g, total);
    SumScale(1.0 / total, Activities(g));
  }

  lemma ReciprocalTimes(t: real)
    requires t != 0.0
    ensures 1.0 / t * t == 1.0
  {
  }

  /**
   * The activity-weighted intensity keeps the group's emissions: production
   * times the weighted intensity is the sum of the bands' emissions.
   */
  lemma {:induction false} WeightedIntensityKeepsEmissions(bands: Bands, group: string)
    requires GroupBaseline(bands, group).Ok?
    ensures GroupBaseline(bands, group).value.TotalEmissionsMt() == Sum(Emissions(GroupBands(bands, group))) / 1000.0
  {
    var g := GroupBands(bands, group);
    QuotientTimes(Sum(Emissions(g)), Sum(Activities(g)));
  }

  lemma QuotientTimes(e: real, t: real)
    requires t != 0.0
    ensures t * (e / t) / 1000.0 == e / 1000.0
  {
  }

  /** A product with a non-negative factor keeps an upper and a lower bound of the other. */
  lemma ScaledBetween(a: real, e: real, lo: real, hi: real)
    requires a >= 0.0 && lo <= e <= hi
    ensures lo * a <= a * e <= hi * a
  {
  }

  lemma {:induction false} EmissionBetween(g: Bands, i: nat, lo: real, hi: real)
    requires i < |g| && g[i].1.activityKt >= 0.0 && lo <= g[i].1.emissionIntensity <= hi
    ensures lo * Activities(g)[i] <= Emissions(g)[i] <= hi * Activities(g)[i]
  {
    var a := g[i].1.activityKt;
    assert Activities(g)[i] == a;
    assert Emissions(g)[i] == a * g[i].1.emissionIntensity;
    ScaledBetween(a, g[i].1.emissionIntensity, lo, hi);
  }

  /** Summing the pointwise lower bounds: the group's emissions are at least its activity times lo. */
  lemma {:induction false} EmissionsAtLeast(g: Bands, lo: real, hi: real)
    requires forall i :: 0 <= i < |g| ==> g[i].1.activityKt >= 0.0 && lo <= g[i].1.emissionIntensity <= hi
    ensures lo * Sum(Activities(g)) <= Sum(Emissions(g))
  {
    forall i | 0 <= i < |g|
      ensures lo * Activities(g)[i] <= Emissions(g)[i]
    {
      EmissionBetween(g, i, lo, hi);
    }
    SumAtLeastScaled(Activities(g), Emissions(g), lo);
  }

  /** Summing the pointwise upper bounds: the group's emissions are at most its activity times hi. */
  lemma {:induction false} EmissionsAtMost(g: Bands, lo: real, hi: real)
    requires forall i :: 0 <= i < |g| ==> g[i].1.activityKt >= 0.0 && lo <= g[i].1.emissionIntensity <= hi
    ensures Sum(Emissions(g)) <= hi * Sum(Activities(g))
  {
    forall i | 0 <= i < |g|
      ensures Emissions(g)[i] <= hi * Activities(g)[i]
    {
      EmissionBetween(g, i, lo, hi);
    }
    SumAtMostScaled(Activities(g), Emissions(g), hi);
  }

  /** The activity-weighted mean of intensities in [lo, hi] lies in [lo, hi]. */
  lemma {:induction false} WeightedMeanWithin(g: Bands, lo: real, hi: real)
    requires forall i :: 0 <= i < |g| ==> g[i].1.activityKt >= 0.0 && lo <= g[i].1.emissionIntensity <= hi
    requires Sum(Activities(g)) != 0.0
    ensures lo <= Sum(Emissions(g)) / Sum(Activities(g)) <= hi
  {
    EmissionsAtLeast(g, lo, hi);
    EmissionsAtMost(g, lo, hi);
    assert forall i :: 0 <= i < |Activities(g)| ==> Activities(g)[i] >= 0.0;
    SumNonNegative(Activities(g));
    QuotientBetween(Sum(Emissions(g)), lo, hi, Sum(Activities(g)));
  }

  /**
   * With non-negative activities and every band's intensity in [lo, hi], the
   * group's weighted intensity lies in [lo, hi] as well.
   */
  lemma {:induction false} WeightedIntensityWithin(bands: Bands, group: string, lo: real, hi: real)
    requires GroupBaseline(bands, group).Ok?
    requires forall p :: p in bands ==> p.1.activityKt >= 0.0
    requires forall p :: p in bands && p.1.techGroup == group ==> lo <= p.1.emissionIntensity <= hi
    ensures lo <= GroupBaseline(bands, group).value.emissionIntensity <= hi
  {
    var g := GroupBands(bands, group);
    GroupWithin(bands, group, lo, hi);
    assert GroupBaseline(bands, group).value.emissionIntensity == Sum(Emissions(g)) / Sum(Activities(g));
    WeightedMeanWithin(g, lo, hi);
  }

  lemma {:induction false} GroupWithin(bands: Bands, group: string, lo: real, hi: real)
    requires forall p :: p in bands ==> p.1.activityKt >= 0.0
    requires forall p :: p in bands && p.1.techGroup == group ==> lo <= p.1.emissionIntensity <= hi
    ensures var g := GroupBands(bands, group);
            forall i :: 0 <= i < |g| ==> g[i].1.activityKt >= 0.0 && lo <= g[i].1.emissionIntensity <= hi
  {
    var g := GroupBands(bands, group);
    forall i | 0 <= i < |g|
      ensures g[i].1.activityKt >= 0.0 && lo <= g[i].1.emissionIntensity <= hi
    {
      assert g[i] in bands;
    }
  }

  /** The tech groups aggregated into process baselines, in order. */
  const TechGroups: seq<string> := ["NCC", "BTX", "C4"]

  /** The loop over tech groups; the first group that cannot be aggregated stops it. */
  function GroupBaselines(bands: Bands, groups: seq<string>): (r: Result<seq<Scenario.ProcessBaseline>>)
    ensures r.Ok? ==> |r.value| == |groups| &&
                      forall i :: 0 <= i < |groups| ==> GroupBaseline(bands, groups[i]) == Ok(r.value[i])
    ensures r.Err? ==> r.error == ZeroDivisionError
  {
    if |groups| == 0 then Ok([])
    else
      match GroupBaselines(bands, groups[..|groups| - 1])
      case Err(e) => Err(e)
      case Ok(pbs) =>
        match GroupBaseline(bands, groups[|groups| - 1])
        case Err(e) => Err(e)
        case Ok(pb) =>
          assert forall i :: 0 <= i < |groups| - 1 ==> groups[..|groups| - 1][i] == groups[i];
          Ok(pbs + [pb])
  }

  /** The loop fails exactly when some group has no production. */
  lemma {:induction false} GroupBaselinesFail(bands: Bands, groups: seq<string>)
    ensures GroupBaselines(bands, groups).Err? <==> exists i :: 0 <= i < |groups| && GroupBaseline(bands, groups[i]).Err?
  {
    if |groups| > 0 {
      var init := groups[..|groups| - 1];
      GroupBaselinesFail(bands, init);
      assert forall i :: 0 <= i < |init| ==> init[i] == groups[i];
    }
  }

  /** The process baselines' emissions in Mt. */
  function ProcessEmissions(pbs: seq<Scenario.ProcessBaseline>): (s: seq<real>)
  {
    seq(|pbs|, i requires 0 <= i < |pbs| => pbs[i].TotalEmissionsMt())
  }

  /** What `create_scenario` passes to `EmissionsScenario`. */
  datatype BandScenario = BandScenario(
    baseline: Scenario.EmissionsBaseline,
    timeline: seq<int>,
    targets: seq<Scenario.EmissionsTarget>)

  /** The reduction targets as fractions of the base-year total. */
  function BandTargets(total: real): (ts: seq<Scenario.EmissionsTarget>)
  {
    [Scenario.EmissionsTarget(2030, total * 0.85),
     Scenario.EmissionsTarget(2040, total * 0.50),
     Scenario.EmissionsTarget(2050, total * 0.20)]
  }

  /** `create_scenario`: 2023 baseline, timeline 2023-2050, targets 15%, 50% and 80% below it. */
  function CreateScenario(bands: Bands): (r: Result<BandScenario>)
    ensures r.Err? <==> exists i :: 0 <= i < |TechGroups| && GroupBaseline(bands, TechGroups[i]).Err?
    ensures r.Err? ==> r.error == ZeroDivisionError
    ensures r.Ok? ==> r.value.baseline.year == 2023 &&
                      |r.value.timeline| == 28 &&
                      (forall i :: 0 <= i < 28 ==> r.value.timeline[i] == 2023 + i) &&
                      r.value.targets == BandTargets(r.value.baseline.totalEmissionsMt)
  {
    GroupBaselinesFail(bands, TechGroups);
    match GroupBaselines(bands, TechGroups)
    case Err(e) => Err(e)
    case Ok(pbs) =>
      var total := Sum(ProcessEmissions(pbs));
      Ok(BandScenario(Scenario.NewEmissionsBaseline(2023, total, pbs),
                      ScenarioYears(),
                      BandTargets(total)))
  }

  /** `create_scenario` with the `EmissionsScenario` it builds: the arguments above, targets interpolated over 2023-2050. */
  method BuildScenario(bands: Bands) returns (r: Result<Scenario.EmissionsScenario>)
    ensures r.Err? <==> CreateScenario(bands).Err?
    ensures r.Err? ==> r.error == ZeroDivisionError
    ensures r.Ok? ==>
      var args := CreateScenario(bands).value;
      fresh(r.value) && r.value.Valid() && r.value.baseline == args.baseline &&
      multiset(r.value.timeline) == multiset(args.timeline) &&
      r.value.targets == Scenario.ScenarioTargets(args.targets, args.timeline, args.baseline.totalEmissionsMt)
  {
    var args := CreateScenario(bands);
    if args.Err? {
      return Err(args.error);
    }
    var built := Scenario.EmissionsScenario.Create(args.value.baseline, args.value.targets, args.value.timeline);
    assert args.value.targets[2].year == 2050;
    assert 2050 in Scenario.TargetMap(args.value.targets);
    return built;
  }

  /** The years 2023-2050 that `create_scenario` passes as the timeline. */
  function ScenarioYears(): (ys: seq<int>)
    ensures |ys| == 28 && forall y :: y in ys <==> 2023 <= y <= 2050
  {
    var ys := seq(28, i requires 0 <= i < 28 => 2023 + i);
    forall y | 2023 <= y <= 2050
      ensures y in ys
    {
      assert ys[y - 2023] == y;
    }
    ys
  }

  /** The explicit band targets as a map. */
  lemma {:induction false} BandTargetMap(total: real)
    ensures Scenario.TargetMap(BandTargets(total)) == map[2030 := total * 0.85, 2040 := total * 0.50, 2050 := total * 0.20]
  {
    var ts := BandTargets(total);
    assert ts[..2][..1] == [ts[0]] && ts[..2][1] == ts[1] && [ts[0]][..0] == [];
    assert Scenario.TargetMap([ts[0]]) == map[2030 := total * 0.85];
    assert Scenario.TargetMap(ts[..2]) == map[2030 := total * 0.85, 2040 := total * 0.50];
  }

  /** The targets `create_scenario` yields once interpolated. */
  ghost function BandScenarioTargetMap(total: real): map<int, real>
  {
    Scenario.ScenarioTargets(BandTargets(total), ScenarioYears(), total)
  }

  /** Every year 2023-2050, and no other, has an interpolated band target. */
  lemma {:induction false} BandScenarioYears(total: real)
    ensures forall y :: y in BandScenarioTargetMap(total) <==> 2023 <= y <= 2050
  {
    var known := Scenario.TargetMap(BandTargets(total));
    BandTargetMap(total);
    assert 2030 in known;
    Scenario.InterpolationCoversTimeline(known, ScenarioYears(), total);
  }

  /** The years before 2030 keep the baseline total as their target. */
  lemma {:induction false} BandScenarioBefore2030(total: real, y: int)
    requires 2023 <= y < 2030
    ensures y in BandScenarioTargetMap(total) && BandScenarioTargetMap(total)[y] == total
  {
    var known := Scenario.TargetMap(BandTargets(total));
    BandTargetMap(total);
    assert 2030 in known && y in ScenarioYears() && y !in known;
    Scenario.InterpolationBeforeFirstTarget(known, total, y);
  }

  /** 2035 lies halfway between the 2030 and 2040 targets. */
  lemma {:induction false} BandScenario2035(total: real)
    ensures 2035 in BandScenarioTargetMap(total) && BandScenarioTargetMap(total)[2035] == total * 0.675
  {
    var known := Scenario.TargetMap(BandTargets(total));
    var years := ScenarioYears();
    BandTargetsBracket2035(total);
    assert 2035 in years;
    assert BandScenarioTargetMap(total) == Scenario.Interpolated(known, years, total);
    Scenario.InterpolatedOtherYear(known, years, total, 2035);
    Scenario.InterpolationInside(known, total, 2035, 2030, 2040);
    HalfwayBlend(total);
  }

  /** No band target year lies strictly between 2030 and 2040. */
  lemma BandTargetsBracket2035(total: real)
    ensures var known := Scenario.TargetMap(BandTargets(total));
      known != map[] && 2035 !in known &&
      2030 in known && 2040 in known && known[2030] == total * 0.85 && known[2040] == total * 0.50 &&
      forall k :: k in known ==> k <= 2030 || k >= 2040
  {
    BandTargetMap(total);
    assert 2030 in Scenario.TargetMap(BandTargets(total));
  }

  lemma HalfwayBlend(total: real)
    ensures Scenario.Blend(2030, 2040, total * 0.85, total * 0.50, 2035) == total * 0.675
  {
    assert (2035 - 2030) as real / (2040 - 2030) as real == 0.5;
  }

  /** The scenario's baseline total is the three groups' band emissions, in Mt. */
  lemma {:induction false} ScenarioTotal(bands: Bands)
    requires CreateScenario(bands).Ok?
    ensures CreateScenario(bands).value.baseline.totalEmissionsMt ==
              (Sum(Emissions(GroupBands(bands, "NCC"))) + Sum(Emissions(GroupBands(bands, "BTX"))) +
               Sum(Emissions(GroupBands(bands, "C4")))) / 1000.0
  {
    var pbs := GroupBaselines(bands, TechGroups).value;
    assert TechGroups[0] == "NCC" && TechGroups[1] == "BTX" && TechGroups[2] == "C4";
    assert GroupBaseline(bands, TechGroups[0]) == Ok(pbs[0]);
    assert GroupBaseline(bands, TechGroups[1]) == Ok(pbs[1]);
    assert GroupBaseline(bands, TechGroups[2]) == Ok(pbs[2]);
    WeightedIntensityKeepsEmissions(bands, "NCC");
    WeightedIntensityKeepsEmissions(bands, "BTX");
    WeightedIntensityKeepsEmissions(bands, "C4");
    SumOfThree(ProcessEmissions(pbs));
  }

  lemma {:induction false} SumOfThree(s: seq<real>)
    requires |s| == 3
    ensures Sum(s) == s[0] + s[1] + s[2]
  {
    assert s[..2][..1] == [s[0]];
    SumSingle(s[0]);
  }

  /** Each of the three groups is stored under its own name in the scenario's baseline. */
  lemma {:induction false} ScenarioProcesses(bands: Bands, i: nat)
    requires CreateScenario(bands).Ok? && i < 3
    ensures OrderedMaps.Get(CreateScenario(bands).value.baseline.processBaselines, TechGroups[i]) ==
            Some(GroupBaseline(bands, TechGroups[i]).value)
  {
    var pbs := GroupBaselines(bands, TechGroups).value;
    var b := Scenario.NewEmissionsBaseline(2023, Sum(ProcessEmissions(pbs)), pbs);
    assert CreateScenario(bands).value.baseline == b;
    assert GroupBaseline(bands, TechGroups[i]) == Ok(pbs[i]);
    LastOfThree(pbs, i);
  }

  lemma {:induction false} LastOfThree(pbs: seq<Scenario.ProcessBaseline>, i: nat)
    requires |pbs| == 3 && i < 3
    requires pbs[0].processType == "NCC" && pbs[1].processType == "BTX" && pbs[2].processType == "C4"
    ensures Scenario.LastProcess(pbs, pbs[i].processType) == Some(pbs[i])
  {
    assert "NCC"[0] != "BTX"[0] && |"NCC"| != |"C4"| && |"BTX"| != |"C4"|;
    var two := pbs[..2];
    assert two[..1] == [pbs[0]] && two[1] == pbs[1];
    if i == 0 {
      assert Scenario.LastProcess(two[..1], "NCC") == Some(pbs[0]);
    }
  }

  /** With a non-negative baseline the targets fall over time and never exceed the baseline. */
  lemma {:induction false} TargetsDecrease(total: real)
    requires total >= 0.0
    ensures var ts := BandTargets(total);
            forall i, j :: 0 <= i < j < |ts| ==> ts[i].year < ts[j].year && ts[j].targetMtCo2 <= ts[i].targetMtCo2 <= total
  {
  }

  // ------------------------------------------------------- the model object

  /** `BandBasedMACCModel`: the baseline bands it loads when it is built. */
  class BandBasedMaccModel {
    var baselineBands: Bands

    /** `__init__` and `load_baseline_structure`: one assignment per `TechBands_2023` row. */
    constructor (rows: seq<BandData>)
      ensures baselineBands == LoadedBands(rows)
    {
      baselineBands := [];
      new;
      var i := 0;
      while i < |rows|
        invariant 0 <= i <= |rows|
        invariant baselineBands == LoadedBands(rows[..i])
      {
        LoadedBandsStep(rows, i);
        baselineBands := OrderedMaps.Put(baselineBands, BandKey(rows[i].techGroup, rows[i].band), rows[i]);
        i := i + 1;
      }
      assert rows[..|rows|] == rows;
    }

    /** `create_alternative_portfolio`: the technologies, before they are added to a portfolio. */
    method CreateAlternativePortfolio(rows: seq<AlternativeRow>) returns (techs: seq<BandTech>)
      ensures techs == Alternatives(baselineBands, rows)
    {
      techs := [];
      var i := 0;
      while i < |rows|
        invariant 0 <= i <= |rows|
        invariant techs == Alternatives(baselineBands, rows[..i])
      {
        var row := rows[i];
        AlternativesStep(baselineBands, rows, i);
        var bandKey := BandKey(row.techGroup, row.band);
        var found := OrderedMaps.Get(baselineBands, bandKey);
        if found.Some? {
          techs := techs + [AlternativeOf(row, found.value)];
        }
        i := i + 1;
      }
      assert rows[..|rows|] == rows;
    }
  }

  // ------------------------------------------------------- alternatives

  /** A merged `AlternativeTechnologies` / `AlternativeCosts` row. */
  datatype AlternativeRow = AlternativeRow(
    techId: string,
    techGroup: string,
    band: string,
    technologyCategory: string,
    emissionReductionTPerT: real,
    capexMillionUsdPerKt: real,
    opexDeltaUsdPerT: real,
    maintenancePct: real,
    lifetimeYears: int,
    commercialYear: int,
    rampRatePerYear: real,
    maxApplicability: real,
    technicalReadiness: int)

  /**
   * A technology with the band attributes the fixed-band model sets on it:
   * `targetBand` is `None` for an object without a `target_band` attribute,
   * and `baselineBandActivity` is only meaningful when it is present.
   */
  datatype BandTech = BandTech(tech: Technology.Technology, targetBand: Option<string>, baselineBandActivity: real)

  /** The alternative built from a row whose band is `data`. */
  function AlternativeOf(row: AlternativeRow, data: BandData): (t: BandTech)
    ensures t.targetBand == Some(BandKey(row.techGroup, row.band))
    ensures t.tech.techId == row.techId && t.tech.processType == row.techGroup
    ensures t.tech.techType == Technology.Alternative
  {
    BandTech(
      Technology.NewAlternative(
        row.techId,
        row.techGroup + " " + row.band + " " + row.technologyCategory,
        row.techGroup,
        data.emissionIntensity - row.emissionReductionTPerT,
        Technology.CostStructure(row.capexMillionUsdPerKt * 1000000.0, row.opexDeltaUsdPerT, row.maintenancePct, None),
        Technology.TechnologyConstraints(row.lifetimeYears, row.commercialYear, row.rampRatePerYear,
                                         row.maxApplicability, row.technicalReadiness),
        None),
      Some(BandKey(row.techGroup, row.band)),
      data.activityKt)
  }

  /** The rows in order, each whose band is in the baseline turned into an alternative; the others skipped. */
  function Alternatives(bands: Bands, rows: seq<AlternativeRow>): (ts: seq<BandTech>)
    ensures |ts| <= |rows|
    ensures forall j :: 0 <= j < |ts| ==>
              ts[j].targetBand.Some? && OrderedMaps.HasKey(bands, ts[j].targetBand.value)
  {
    if |rows| == 0 then []
    else
      var row := rows[|rows| - 1];
      match OrderedMaps.Get(bands, BandKey(row.techGroup, row.band))
      case None => Alternatives(bands, rows[..|rows| - 1])
      case Some(data) => Alternatives(bands, rows[..|rows| - 1]) + [AlternativeOf(row, data)]
  }

  lemma {:induction false} AlternativesStep(bands: Bands, rows: seq<AlternativeRow>, i: nat)
    requires i < |rows|
    ensures var found := OrderedMaps.Get(bands, BandKey(rows[i].techGroup, rows[i].band));
            Alternatives(bands, rows[..i + 1]) ==
              Alternatives(bands, rows[..i]) + (if found.Some? then [AlternativeOf(rows[i], found.value)] else [])
  {
    assert rows[..i + 1][..i] == rows[..i];
  }

  /** Every row whose band is known yields its alternative. */
  lemma {:induction false} KnownRowKept(bands: Bands, rows: seq<AlternativeRow>, i: nat)
    requires i < |rows| && OrderedMaps.HasKey(bands, BandKey(rows[i].techGroup, rows[i].band))
    ensures AlternativeOf(rows[i], OrderedMaps.Get(bands, BandKey(rows[i].techGroup, rows[i].band)).value)
            in Alternatives(bands, rows)
  {
    if i < |rows| - 1 {
      KnownRowKept(bands, rows[..|rows| - 1], i);
    }
  }

  /** Every alternative comes from a row whose band is known, built against that band. */
  lemma {:induction false} AlternativeFromRow(bands: Bands, rows: seq<AlternativeRow>, j: nat)
    requires j < |Alternatives(bands, rows)|
    ensures exists i :: 0 <= i < |rows| && OrderedMaps.HasKey(bands, BandKey(rows[i].techGroup, rows[i].band)) &&
              Alternatives(bands, rows)[j] ==
                AlternativeOf(rows[i], OrderedMaps.Get(bands, BandKey(rows[i].techGroup, rows[i].band)).value)
  {
    var init := rows[..|rows| - 1];
    if j < |Alternatives(bands, init)| {
      AlternativeFromRow(bands, init, j);
      var i :| 0 <= i < |init| && OrderedMaps.HasKey(bands, BandKey(init[i].techGroup, init[i].band)) &&
               Alternatives(bands, init)[j] ==
                 AlternativeOf(init[i], OrderedMaps.Get(bands, BandKey(init[i].techGroup, init[i].band)).value);
      assert init[i] == rows[i];
    } else {
      assert OrderedMaps.HasKey(bands, BandKey(rows[|rows| - 1].techGroup, rows[|rows| - 1].band));
    }
  }

  /**
   * The alternative's emission factor is its band's intensity less the row's
   * reduction, its capex is the row's in USD rather than million USD, and the
   * stored band activity is the band's.
   */
  lemma {:induction false} AlternativeAgainstBand(row: AlternativeRow, data: BandData)
    ensures var t := AlternativeOf(row, data);
            t.tech.emissionFactor + row.emissionReductionTPerT == data.emissionIntensity &&
            t.tech.costStructure.capexUsdPerKt == 1000000.0 * row.capexMillionUsdPerKt &&
            t.tech.constraints.maxApplicability == row.maxApplicability &&
            t.baselineBandActivity == data.activityKt
  {
  }

  // ------------------------------------------------------- fixed-band capacity

  /** `_calculate_max_capacity`: the targeted band's activity times the applicability; 0 without a known band. */
  function MaxCapacity(bands: Bands, t: BandTech): (r: real)
    ensures t.targetBand.None? ==> r == 0.0
    ensures t.targetBand.Some? && !OrderedMaps.HasKey(bands, t.targetBand.value) ==> r == 0.0
  {
    match t.targetBand
    case None => 0.0
    case Some(k) =>
      match OrderedMaps.Get(bands, k)
      case None => 0.0
      case Some(data) => data.activityKt * t.tech.constraints.maxApplicability
  }

  /** With an applicability in [0, 1] the cap lies between 0 and the targeted band's activity. */
  lemma {:induction false} MaxCapacityWithinBand(bands: Bands, t: BandTech, data: BandData)
    requires t.targetBand.Some? && OrderedMaps.Get(bands, t.targetBand.value) == Some(data)
    requires data.activityKt >= 0.0 && 0.0 <= t.tech.constraints.maxApplicability <= 1.0
    ensures 0.0 <= MaxCapacity(bands, t) <= data.activityKt
  {
    var a := data.activityKt;
    var m := t.tech.constraints.maxApplicability;
    assert MaxCapacity(bands, t) == a * m;
    ScaledBetween(a, m, 0.0, 1.0);
  }

  /** An alternative built from a known band is capped by the band activity it stores. */
  lemma {:induction false} AlternativeCapacity(bands: Bands, row: AlternativeRow)
    requires OrderedMaps.HasKey(bands, BandKey(row.techGroup, row.band))
    ensures var t := AlternativeOf(row, OrderedMaps.Get(bands, BandKey(row.techGroup, row.band)).value);
            MaxCapacity(bands, t) == t.baselineBandActivity * row.maxApplicability
  {
  }

  /** The sum of `values[i]` over the technologies targeting `band`. */
  function BandTotal(techs: seq<BandTech>, values: seq<real>, band: string): real
    requires |values| == |techs|
  {
    if |techs| == 0 then 0.0
    else
      BandTotal(techs[..|techs| - 1], values[..|values| - 1], band) +
      (if techs[|techs| - 1].targetBand == Some(band) then values[|values| - 1] else 0.0)
  }

  /** `band_capacity_rule` for one band and year: its alternatives produce at most its baseline activity. */
  predicate BandCapacityRule(techs: seq<BandTech>, production: seq<real>, band: string, capacityKt: real)
    requires |production| == |techs|
  {
    BandTotal(techs, production, band) <= capacityKt
  }

  /** The summed applicability of the technologies targeting `band`. */
  function BandApplicability(techs: seq<BandTech>, band: string): real
  {
    if |techs| == 0 then 0.0
    else
      BandApplicability(techs[..|techs| - 1], band) +
      (if techs[|techs| - 1].targetBand == Some(band) then techs[|techs| - 1].tech.constraints.maxApplicability else 0.0)
  }

  /** Production capped per technology at `activity` times its applicability sums to at most activity times the band's applicability. */
  lemma {:induction false} BandTotalAtMost(techs: seq<BandTech>, production: seq<real>, band: string, activity: real)
    requires |production| == |techs|
    requires forall i :: 0 <= i < |techs| && techs[i].targetBand == Some(band) ==>
               production[i] <= activity * techs[i].tech.constraints.maxApplicability
    ensures BandTotal(techs, production, band) <= activity * BandApplicability(techs, band)
  {
    if |techs| > 0 {
      var n := |techs| - 1;
      BandTotalAtMost(techs[..n], production[..n], band, activity);
      var m := if techs[n].targetBand == Some(band) then techs[n].tech.constraints.maxApplicability else 0.0;
      Distributes(activity, BandApplicability(techs[..n], band), m, BandApplicability(techs, band));
    }
  }

  lemma AtMostWhole(a: real, x: real)
    requires a >= 0.0 && x <= 1.0
    ensures a * x <= a
  {
  }

  /**
   * The fixed-band rule follows from the per-technology caps whenever the
   * applicabilities of a band's alternatives add up to at most one.
   */
  lemma {:induction false} BandRuleFromCaps(bands: Bands, techs: seq<BandTech>, production: seq<real>, band: string, data: BandData)
    requires |production| == |techs|
    requires OrderedMaps.Get(bands, band) == Some(data) && data.activityKt >= 0.0
    requires forall i :: 0 <= i < |techs| ==> production[i] <= MaxCapacity(bands, techs[i])
    requires BandApplicability(techs, band) <= 1.0
    ensures BandCapacityRule(techs, production, band, data.activityKt)
  {
    BandTotalAtMost(techs, production, band, data.activityKt);
    AtMostWhole(data.activityKt, BandApplicability(techs, band));
  }

  // ------------------------------------------------------- band summary

  /** The baseline production left in a band: `max(0, baseline - alternative)`. */
  function RemainingBaseline(baselineKt: real, alternativeKt: real): (r: real)
    ensures r >= 0.0 && r >= baselineKt - alternativeKt
    ensures r == 0.0 || r == baselineKt - alternativeKt
  {
    Max(0.0, baselineKt - alternativeKt)
  }

  /** One `band_level_summary` row. */
  datatype BandSummary = BandSummary(
    year: int,
    bandKey: string,
    techGroup: string,
    band: string,
    baselineProductionKt: real,
    alternativeProductionKt: real,
    remainingBaselineKt: real,
    alternativeSharePct: real,
    alternativeAbatementTCo2: real,
    remainingEmissionsTCo2: real,
    bandEmissionReductionPct: real)

  /**
   * The summary of one band in one year, from the technologies' production
   * and abatement that year. A producing band with no emission intensity
   * divides the abatement by zero baseline emissions: ZeroDivisionError, as
   * the values are Python floats.
   */
  function BandSummaryOf(year: int, bandKey: string, data: BandData, techs: seq<BandTech>,
                         production: seq<real>, abatement: seq<real>): (r: Result<BandSummary>)
    requires |production| == |techs| && |abatement| == |techs|
    ensures r.Err? <==> data.activityKt > 0.0 && data.emissionIntensity == 0.0
    ensures r.Err? ==> r.error == ZeroDivisionError
    ensures r.Ok? ==> r.value.alternativeProductionKt == BandTotal(techs, production, bandKey)
    ensures r.Ok? ==> r.value.alternativeAbatementTCo2 == BandTotal(techs, abatement, bandKey)
    ensures r.Ok? ==> r.value.remainingBaselineKt == RemainingBaseline(data.activityKt, r.value.alternativeProductionKt)
    ensures r.Ok? && data.activityKt <= 0.0 ==> r.value.alternativeSharePct == 0.0 && r.value.bandEmissionReductionPct == 0.0
    ensures r.Ok? && data.activityKt > 0.0 ==>
              r.value.bandEmissionReductionPct * (data.activityKt * data.emissionIntensity * 1000.0) == r.value.alternativeAbatementTCo2 * 100.0
  {
    var alt := BandTotal(techs, production, bandKey);
    var abated := BandTotal(techs, abatement, bandKey);
    var remaining := RemainingBaseline(data.activityKt, alt);
    var baselineEmissions := data.activityKt * data.emissionIntensity * 1000.0;
    ZeroEmissionsIffZeroIntensity(data.activityKt, data.emissionIntensity);
    if data.activityKt > 0.0 && baselineEmissions == 0.0 then Err(ZeroDivisionError)
    else
      var reduction := if data.activityKt <= 0.0 then 0.0 else abated / baselineEmissions * 100.0;
      Ok(BandSummary(
        year, bandKey, data.techGroup, data.band, data.activityKt, alt, remaining,
        if data.activityKt > 0.0 then alt / data.activityKt * 100.0 else 0.0,
        abated,
        remaining * data.emissionIntensity * 1000.0,
        reduction))
  }

  /** A producing band emits nothing exactly when its intensity is 0. */
  lemma ZeroEmissionsIffZeroIntensity(activity: real, intensity: real)
    ensures activity > 0.0 ==> (activity * intensity * 1000.0 == 0.0 <==> intensity == 0.0)
  {
    if activity > 0.0 && intensity != 0.0 {
      assert activity * intensity != 0.0;
    }
  }

  lemma SharesOfWhole(alt: real, base: real)
    requires base > 0.0 && 0.0 <= alt <= base
    ensures 0.0 <= alt / base * 100.0 <= 100.0
    ensures (base - alt) / base * 100.0 + alt / base * 100.0 == 100.0
  {
    assert alt / base <= 1.0;
  }

  /**
   * Under the band's capacity rule and with non-negative production the
   * clamp never bites: the remaining and the alternative production make up
   * the baseline, and the alternative share is a percentage whose complement
   * is the remaining share.
   */
  lemma {:induction false} SummaryUnderBandRule(year: int, bandKey: string, data: BandData, techs: seq<BandTech>,
                                                production: seq<real>, abatement: seq<real>)
    requires |production| == |techs| && |abatement| == |techs|
    requires forall i :: 0 <= i < |production| ==> production[i] >= 0.0
    requires BandCapacityRule(techs, production, bandKey, data.activityKt) && data.activityKt > 0.0
    ensures var r := BandSummaryOf(year, bandKey, data, techs, production, abatement);
            r.Ok? ==>
            var s := r.value;
            s.remainingBaselineKt + s.alternativeProductionKt == s.baselineProductionKt &&
            0.0 <= s.alternativeSharePct <= 100.0 &&
            s.remainingBaselineKt / s.baselineProductionKt * 100.0 + s.alternativeSharePct == 100.0
  {
    BandTotalNonNegative(techs, production, bandKey);
    SharesOfWhole(BandTotal(techs, production, bandKey), data.activityKt);
  }

  lemma {:induction false} BandTotalNonNegative(techs: seq<BandTech>, values: seq<real>, band: string)
    requires |values| == |techs|
    requires forall i :: 0 <= i < |values| ==> values[i] >= 0.0
    ensures BandTotal(techs, values, band) >= 0.0
  {
    if |techs| > 0 {
      BandTotalNonNegative(techs[..|techs| - 1], values[..|values| - 1], band);
    }
  }

  // ------------------------------------------------------- technological changes

  /** `_get_investment_phase`, ranked from no activity to high investment. */
  datatype InvestmentPhase = NotActive | Operational | InitialInvestment | ModerateInvestment | HighInvestment
  {
    function Rank(): nat
    {
      match this
      case NotActive => 0
      case Operational => 1
      case InitialInvestment => 2
      case ModerateInvestment => 3
      case HighInvestment => 4
    }

    predicate IsInvestment() { Rank() >= 2 }
  }

  /**
   * The phase of a technology-year from its installation and total capacity
   * (kt); the cumulative installation is passed but does not decide it.
   */
  function InvestmentPhaseOf(installCapKt: real, totalCapKt: real, cumulativeInstallKt: real): (p: InvestmentPhase)
    ensures p.IsInvestment() <==> installCapKt > 0.0
    ensures p == NotActive <==> installCapKt <= 0.0 && totalCapKt <= 0.0
    ensures p == HighInvestment <==> installCapKt > 100.0
    ensures p.IsInvestment() && p != HighInvestment ==> (p == ModerateInvestment <==> installCapKt > 10.0)
  {
    if installCapKt > 100.0 then HighInvestment
    else if installCapKt > 10.0 then ModerateInvestment
    else if installCapKt > 0.0 then InitialInvestment
    else if totalCapKt > 0.0 then Operational
    else NotActive
  }

  /** More installation or more capacity never moves a technology to a lower phase. */
  lemma {:induction false} InvestmentPhaseMonotone(i1: real, t1: real, c1: real, i2: real, t2: real, c2: real)
    requires i1 <= i2 && t1 <= t2
    ensures InvestmentPhaseOf(i1, t1, c1).Rank() <= InvestmentPhaseOf(i2, t2, c2).Rank()
  {
  }

  /** `_get_deployment_status`, ranked from pre-commercial to saturated. */
  datatype DeploymentStatus = PreCommercial | Demonstration | EarlyDeployment | Scaling | Saturated
  {
    function Rank(): nat
    {
      match this
      case PreCommercial => 0
      case Demonstration => 1
      case EarlyDeployment => 2
      case Scaling => 3
      case Saturated => 4
    }
  }

  /** `x / base` when the base is positive, else 0: the guarded ratios of the output rows. */
  function Ratio(x: real, base: real): (r: real)
    ensures base > 0.0 ==> r * base == x
    ensures base <= 0.0 ==> r == 0.0
  {
    if base > 0.0 then x / base else 0.0
  }

  lemma RatioAtLeast(x: real, base: real, c: real)
    requires base > 0.0
    ensures Ratio(x, base) >= c <==> x >= c * base
  {
    assert Ratio(x, base) == x / base;
  }

  lemma {:induction false} RatioThresholds(x: real, base: real)
    ensures base > 0.0 ==>
              (Ratio(x, base) >= 0.9 <==> x >= 0.9 * base) &&
              (Ratio(x, base) >= 0.5 <==> x >= 0.5 * base) &&
              (Ratio(x, base) >= 0.1 <==> x >= 0.1 * base) &&
              (Ratio(x, base) > 0.0 <==> x > 0.0)
  {
    if base > 0.0 {
      RatioAtLeast(x, base, 0.9);
      RatioAtLeast(x, base, 0.5);
      RatioAtLeast(x, base, 0.1);
      RatioAtLeast(x, base, 0.0);
    }
  }

  lemma RatioMonotone(x1: real, x2: real, base: real)
    requires x1 <= x2
    ensures base > 0.0 ==> Ratio(x1, base) <= Ratio(x2, base)
  {
    if base > 0.0 {
      assert x1 / base <= x2 / base;
    }
  }

  /**
   * The status from the penetration relative to the maximum applicability,
   * with the 90%, 50% and 10% thresholds stated on the penetration itself.
   */
  function DeploymentStatusOf(marketPenetration: real, maxApplicability: real): (s: DeploymentStatus)
    ensures maxApplicability <= 0.0 ==> s == PreCommercial
    ensures maxApplicability > 0.0 ==>
              (s == Saturated <==> marketPenetration >= 0.9 * maxApplicability) &&
              (s.Rank() >= 3 <==> marketPenetration >= 0.5 * maxApplicability) &&
              (s.Rank() >= 2 <==> marketPenetration >= 0.1 * maxApplicability) &&
              (s == PreCommercial <==> marketPenetration <= 0.0)
  {
    var ratio := Ratio(marketPenetration, maxApplicability);
    RatioThresholds(marketPenetration, maxApplicability);
    if ratio >= 0.9 then Saturated
    else if ratio >= 0.5 then Scaling
    else if ratio >= 0.1 then EarlyDeployment
    else if ratio > 0.0 then Demonstration
    else PreCommercial
  }

  /** A deeper penetration never lowers the status. */
  lemma {:induction false} DeploymentStatusMonotone(p1: real, p2: real, maxApplicability: real)
    requires p1 <= p2
    ensures DeploymentStatusOf(p1, maxApplicability).Rank() <= DeploymentStatusOf(p2, maxApplicability).Rank()
  {
    RatioMonotone(p1, p2, maxApplicability);
  }

  /** `max(0, year - start_year)`. */
  function YearsSinceCommercial(year: int, startYear: int): (n: nat)
    ensures n >= year - startYear
    ensures n == 0 || n == year - startYear
  {
    if year - startYear > 0 then year - startYear else 0
  }

  /** Mature after five years in commercial use. */
  function IsMature(year: int, startYear: int): (m: bool)
    ensures m <==> year >= startYear + 5
  {
    YearsSinceCommercial(year, startYear) >= 5
  }

  /** The installation summed over the model years up to and including `year`. */
  function CumulativeInstall(years: seq<int>, installs: seq<real>, year: int): real
    requires |installs| == |years|
  {
    if |years| == 0 then 0.0
    else
      CumulativeInstall(years[..|years| - 1], installs[..|installs| - 1], year) +
      (if years[|years| - 1] <= year then installs[|installs| - 1] else 0.0)
  }

  /** With non-negative installations the cumulative installation grows with the year. */
  lemma {:induction false} CumulativeInstallMonotone(years: seq<int>, installs: seq<real>, y1: int, y2: int)
    requires |installs| == |years| && y1 <= y2
    requires forall i :: 0 <= i < |installs| ==> installs[i] >= 0.0
    ensures CumulativeInstall(years, installs, y1) <= CumulativeInstall(years, installs, y2)
  {
    if |years| > 0 {
      CumulativeInstallMonotone(years[..|years| - 1], installs[..|installs| - 1], y1, y2);
    }
  }

  /** One `technological_changes_timeline` row, in the fields the rules decide. */
  datatype TechChange = TechChange(
    year: int,
    techId: string,
    yearsSinceCommercial: nat,
    mature: bool,
    installCapKt: real,
    cumulativeInstallKt: real,
    totalCapKt: real,
    productionKt: real,
    capacityUtilizationPct: real,
    marketPenetrationPct: real,
    phase: InvestmentPhase,
    status: DeploymentStatus)

  /**
   * The row of a technology in a year, `None` when it has no target band
   * (skipped) or nothing installed, available or produced. `data` is its band.
   */
  function TechChangeOf(year: int, t: BandTech, data: BandData, installCapKt: real, totalCapKt: real,
                        productionKt: real, cumulativeInstallKt: real): (r: Option<TechChange>)
    ensures r.Some? <==> t.targetBand.Some? && (installCapKt > 0.0 || totalCapKt > 0.0 || productionKt > 0.0)
    ensures r.Some? ==>
              r.value.mature == (year >= t.tech.constraints.startYear + 5) &&
              r.value.phase == InvestmentPhaseOf(installCapKt, totalCapKt, cumulativeInstallKt) &&
              r.value.status == DeploymentStatusOf(Ratio(productionKt, data.activityKt), t.tech.constraints.maxApplicability)
  {
    if t.targetBand.None? || !(installCapKt > 0.0 || totalCapKt > 0.0 || productionKt > 0.0) then None
    else
      var penetration := Ratio(productionKt, data.activityKt);
      Some(TechChange(
        year, t.tech.techId,
        YearsSinceCommercial(year, t.tech.constraints.startYear),
        IsMature(year, t.tech.constraints.startYear),
        installCapKt, cumulativeInstallKt, totalCapKt, productionKt,
        Ratio(productionKt, totalCapKt) * 100.0,
        penetration * 100.0,
        InvestmentPhaseOf(installCapKt, totalCapKt, cumulativeInstallKt),
        DeploymentStatusOf(penetration, t.tech.constraints.maxApplicability)))
  }

  lemma PenetrationOfCap(production: real, activity: real, maxApplicability: real)
    requires activity > 0.0 && production <= activity * maxApplicability
    ensures Ratio(production, activity) <= maxApplicability
  {
    assert production / activity <= activity * maxApplicability / activity;
  }

  /**
   * A technology producing at most its cap has a penetration of at most its
   * applicability, so it is saturated exactly when it produces at least 90%
   * of that cap.
   */
  lemma {:induction false} SaturatedNearCap(bands: Bands, t: BandTech, data: BandData, production: real)
    requires t.targetBand.Some? && OrderedMaps.Get(bands, t.targetBand.value) == Some(data)
    requires data.activityKt > 0.0 && t.tech.constraints.maxApplicability > 0.0
    requires production <= MaxCapacity(bands, t)
    ensures Ratio(production, data.activityKt) <= t.tech.constraints.maxApplicability
    ensures DeploymentStatusOf(Ratio(production, data.activityKt), t.tech.constraints.maxApplicability) == Saturated
            <==> production >= 0.9 * MaxCapacity(bands, t)
  {
    var app := t.tech.constraints.maxApplicability;
    PenetrationOfCap(production, data.activityKt, app);
    SaturationThreshold(production, data.activityKt, app);
  }

  lemma SaturationThreshold(production: real, activity: real, app: real)
    requires activity > 0.0 && app > 0.0
    ensures Ratio(production, activity) >= 0.9 * app <==> production >= 0.9 * (activity * app)
  {
    RatioAtLeast(production, activity, 0.9 * app);
  }

  // ------------------------------------------------------- lifecycle costs

  /** The discount rate of the cost comparison. */
  const CostDiscountRate: real := 0.05

  /** Tonnes produced a year by 1 kt of capacity at 85% utilisation. */
  const AnnualProductionT: real := 1.0 * 1000.0 * 0.85

  /** `1 / (1 + r) ** y`. */
  function DiscountFactorAt(y: nat): (d: real)
    ensures 0.0 < d <= 1.0
  {
    PowAtLeastOne(1.0 + CostDiscountRate, y);
    1.0 / Pow(1.0 + CostDiscountRate, y)
  }

  /** The opex discounted over years 1 to n. */
  function DiscountedOpex(opex: real, n: nat): real
  {
    if n == 0 then 0.0 else DiscountedOpex(opex, n - 1) + opex * DiscountFactorAt(n)
  }

  /** Capex plus the opex discounted over `range(1, lifetime + 1)`, empty for a lifetime below one. */
  function LifecycleNpv(capex: real, opex: real, lifetime: int): real
  {
    capex + DiscountedOpex(opex, if lifetime > 0 then lifetime else 0)
  }

  /** The NPV loop of `generate_cost_comparison_analysis`. */
  method NpvOf(capex: real, opex: real, lifetime: int) returns (npv: real)
    ensures npv == LifecycleNpv(capex, opex, lifetime)
  {
    npv := capex;
    var y := 1;
    while y <= lifetime
      invariant 1 <= y <= (if lifetime > 0 then lifetime else 0) + 1
      invariant npv == capex + DiscountedOpex(opex, y - 1)
    {
      npv := npv + opex * DiscountFactorAt(y);
      y := y + 1;
    }
  }

  /** The discounted opex is the opex times the annuity factor at 5%. */
  lemma {:induction false} DiscountedOpexIsAnnuity(opex: real, n: nat)
    ensures DiscountedOpex(opex, n) == opex * Finance.AnnuityFactor(CostDiscountRate, n)
  {
    if n > 0 {
      DiscountedOpexIsAnnuity(opex, n - 1);
      Distributes(opex, Finance.AnnuityFactor(CostDiscountRate, n - 1), DiscountFactorAt(n),
                  Finance.AnnuityFactor(CostDiscountRate, n));
    }
  }

  lemma MulMonotone(a: real, x: real, y: real)
    requires a >= 0.0 && x <= y
    ensures a * x <= a * y
  {
  }

  /**
   * With a non-negative opex the NPV is at least the capex and at most the
   * capex plus the undiscounted opex over the lifetime.
   */
  lemma {:induction false} LifecycleNpvBounds(capex: real, opex: real, lifetime: int)
    requires opex >= 0.0 && lifetime >= 0
    ensures capex <= LifecycleNpv(capex, opex, lifetime) <= capex + opex * lifetime as real
  {
    var af := Finance.AnnuityFactor(CostDiscountRate, lifetime);
    DiscountedOpexIsAnnuity(opex, lifetime);
    AnnuityAtMostPerpetuity(lifetime);
    MulMonotone(opex, 0.0, af);
    MulMonotone(opex, af, lifetime as real);
  }

  /** However long the lifetime, the NPV of a non-negative opex stays below capex plus the perpetuity opex / 0.05. */
  lemma {:induction false} LifecycleNpvBelowPerpetuity(capex: real, opex: real, lifetime: int)
    requires opex >= 0.0 && lifetime >= 0
    ensures LifecycleNpv(capex, opex, lifetime) <= capex + opex * 20.0
  {
    var af := Finance.AnnuityFactor(CostDiscountRate, lifetime);
    DiscountedOpexIsAnnuity(opex, lifetime);
    AnnuityAtMostPerpetuity(lifetime);
    MulMonotone(opex, af, 20.0);
  }

  /** At 5% the annuity factor lies between 0 and both the number of years and the perpetuity factor 20. */
  lemma {:induction false} AnnuityAtMostPerpetuity(n: nat)
    ensures 0.0 <= Finance.AnnuityFactor(CostDiscountRate, n) <= n as real
    ensures Finance.AnnuityFactor(CostDiscountRate, n) <= 20.0
  {
    Finance.AnnuityFactorAtMost(CostDiscountRate, n);
    Finance.AnnuityClosedForm(CostDiscountRate, n);
  }

  /** A longer lifetime never lowers the NPV of a non-negative opex. */
  lemma {:induction false} LifecycleNpvMonotone(capex: real, opex: real, n: nat)
    requires opex >= 0.0
    ensures LifecycleNpv(capex, opex, n) <= LifecycleNpv(capex, opex, n + 1)
  {
    MulMonotone(opex, 0.0, DiscountFactorAt(n + 1));
  }

  /** One `cost_comparison` row, in the fields the rules decide. */
  datatype CostComparison = CostComparison(
    techId: string,
    altTotalCapex: real,
    altAnnualOpex: real,
    altNpvTotal: real,
    baselineNpvTotal: real,
    npvDifferential: real,
    annualAbatementTCo2: real,
    costPerTco2Capex: real,
    costPerTco2Opex: real,
    costPerTco2Total: real)

  /** `numerator / denominator` if the abatement is positive, else 0; ZeroDivisionError for a zero denominator. */
  function PerTonne(numerator: real, abatement: real, denominator: real): (r: Result<real>)
    ensures abatement <= 0.0 ==> r == Ok(0.0)
    ensures abatement > 0.0 ==> (r.Err? <==> denominator == 0.0)
    ensures r.Err? ==> r.error == ZeroDivisionError
    ensures abatement > 0.0 && r.Ok? ==> r.value * denominator == numerator
  {
    if abatement <= 0.0 then Ok(0.0)
    else if denominator == 0.0 then Err(ZeroDivisionError)
    else Ok(numerator / denominator)
  }

  /** The tonnes of CO2 a year of 1 kt of the alternative abates against the band. */
  function AnnualAbatement(t: BandTech, data: BandData): real
  {
    AnnualProductionT * Abs(t.tech.emissionFactor - data.emissionIntensity)
  }

  /** The lifecycle costs of 1 kt of an alternative against a baseline with no capex and no opex. */
  function CostComparisonOf(t: BandTech, data: BandData): (r: Result<CostComparison>)
    ensures r.Err? <==> AnnualAbatement(t, data) > 0.0 && t.tech.constraints.lifetimeYears == 0
    ensures r.Err? ==> r.error == ZeroDivisionError
    ensures r.Ok? ==> var c := r.value;
              c.baselineNpvTotal == 0.0 && c.npvDifferential == c.altNpvTotal &&
              c.altNpvTotal == LifecycleNpv(c.altTotalCapex, c.altAnnualOpex, t.tech.constraints.lifetimeYears) &&
              c.annualAbatementTCo2 == AnnualAbatement(t, data)
    ensures r.Ok? && AnnualAbatement(t, data) > 0.0 ==> var c := r.value;
              c.costPerTco2Opex * c.annualAbatementTCo2 == c.altAnnualOpex &&
              c.costPerTco2Capex * (c.annualAbatementTCo2 * t.tech.constraints.lifetimeYears as real) == c.altTotalCapex &&
              c.costPerTco2Total * (c.annualAbatementTCo2 * t.tech.constraints.lifetimeYears as real) == c.npvDifferential
  {
    var cs := t.tech.costStructure;
    var lifetime := t.tech.constraints.lifetimeYears;
    var altCapex := cs.capexUsdPerKt * 1.0;
    var altOpex := AnnualProductionT * cs.opexDeltaUsdPerT + altCapex * (cs.maintenancePct / 100.0);
    var altNpv := LifecycleNpv(altCapex, altOpex, lifetime);
    var baselineNpv := LifecycleNpv(0.0 * 1.0, AnnualProductionT * 0.0, lifetime);
    ZeroOpexNpv(lifetime);
    var abatement := AnnualAbatement(t, data);
    var capexPerT := PerTonne(altCapex - 0.0, abatement, abatement * lifetime as real);
    var opexPerT := PerTonne(altOpex - 0.0, abatement, abatement);
    var totalPerT := PerTonne(altNpv - baselineNpv, abatement, abatement * lifetime as real);
    ZeroProductIffZeroLifetime(abatement, lifetime);
    if capexPerT.Err? || opexPerT.Err? || totalPerT.Err? then Err(ZeroDivisionError)
    else
      Ok(CostComparison(
        t.tech.techId, altCapex, altOpex, altNpv, baselineNpv, altNpv - baselineNpv, abatement,
        capexPerT.value, opexPerT.value, totalPerT.value))
  }

  /** A positive abatement times a lifetime is 0 exactly for a lifetime of 0. */
  lemma ZeroProductIffZeroLifetime(abatement: real, lifetime: int)
    ensures abatement > 0.0 ==> (abatement * lifetime as real == 0.0 <==> lifetime == 0)
  {
    if abatement > 0.0 && lifetime != 0 {
      assert lifetime as real != 0.0;
    }
  }

  lemma {:induction false} ZeroOpexNpv(lifetime: int)
    ensures LifecycleNpv(0.0, 0.0, lifetime) == 0.0
  {
    DiscountedOpexIsAnnuity(0.0, if lifetime > 0 then lifetime else 0);
  }

  /**
   * For an alternative built against its band the annual abatement is 850 t
   * times the magnitude of the row's reduction, so the per-tonne costs are
   * all 0 exactly when the row reduces nothing.
   */
  lemma {:induction false} AlternativeAbatement(row: AlternativeRow, data: BandData)
    ensures AnnualAbatement(AlternativeOf(row, data), data) == 850.0 * Abs(row.emissionReductionTPerT)
    ensures row.emissionReductionTPerT == 0.0 <==> AnnualAbatement(AlternativeOf(row, data), data) == 0.0
    ensures row.emissionReductionTPerT == 0.0 ==>
              var r := CostComparisonOf(AlternativeOf(row, data), data);
              r.Ok? && r.value.costPerTco2Capex == 0.0 && r.value.costPerTco2Opex == 0.0 && r.value.costPerTco2Total == 0.0
  {
    AlternativeAgainstBand(row, data);
    var t := AlternativeOf(row, data);
    assert t.tech.emissionFactor - data.emissionIntensity == -row.emissionReductionTPerT;
  }
}
