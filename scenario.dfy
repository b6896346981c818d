/**
 * The emissions baseline and the reduction scenario: per-process baselines,
 * target interpolation over the timeline, required abatement and the
 * feasibility check against an abatement potential.
 */
module Scenario {

  import opened Wrappers
  import opened Reals
  import opened Ints
  import OrderedMaps

  datatype EmissionsTarget = EmissionsTarget(year: int, targetMtCo2: real)

  /** One process's production (kt), intensity (t CO2 per t) and band shares. */
  datatype ProcessBaseline = ProcessBaseline(
    processType: string,
    productionKt: real,
    emissionIntensity: real,
    bandDistribution: OrderedMaps.Dict<string, real>)
  {
    /** Emissions in Mt: kt times t CO2 per t, divided by 1000. */
    function TotalEmissionsMt(): real
    {
      productionKt * emissionIntensity / 1000.0
    }
  }

  /** The base year's totals; `processBaselines` is keyed by process type. */
  datatype EmissionsBaseline = EmissionsBaseline(
    year: int,
    totalEmissionsMt: real,
    processBaselines: OrderedMaps.Dict<string, ProcessBaseline>)
  {
    function GetProcessEmissions(processType: string): (r: real)
      ensures !OrderedMaps.HasKey(processBaselines, processType) ==> r == 0.0
    {
      match OrderedMaps.Get(processBaselines, processType)
      case Some(pb) => pb.TotalEmissionsMt()
      case None => 0.0
    }

    function GetProcessProduction(processType: string): (r: real)
      ensures !OrderedMaps.HasKey(processBaselines, processType) ==> r == 0.0
    {
      match OrderedMaps.Get(processBaselines, processType)
      case Some(pb) => pb.productionKt
      case None => 0.0
    }

    /** Capacity in a band (kt): production times the band's share, 0 when either is unknown. */
    function GetBandCapacity(processType: string, band: string): (r: real)
      ensures !OrderedMaps.HasKey(processBaselines, processType) ==> r == 0.0
      ensures OrderedMaps.Get(processBaselines, processType).Some? &&
              !OrderedMaps.HasKey(OrderedMaps.Get(processBaselines, processType).value.bandDistribution, band)
              ==> r == 0.0
    {
      match OrderedMaps.Get(processBaselines, processType)
      case None => 0.0
      case Some(pb) => pb.productionKt * OrderedMaps.GetOr(pb.bandDistribution, band, 0.0)
    }
  }

  /** The last baseline in the list for a process: the one a dict comprehension keeps. */
  function LastProcess(processes: seq<ProcessBaseline>, processType: string): Option<ProcessBaseline>
  {
    if |processes| == 0 then None
    else if processes[|processes| - 1].processType == processType then Some(processes[|processes| - 1])
    else LastProcess(processes[..|processes| - 1], processType)
  }

  function ProcessPairs(processes: seq<ProcessBaseline>): (ps: seq<(string, ProcessBaseline)>)
    ensures |ps| == |processes|
    ensures forall i :: 0 <= i < |ps| ==> ps[i] == (processes[i].processType, processes[i])
  {
    if |processes| == 0 then []
    else ProcessPairs(processes[..|processes| - 1]) + [(processes[|processes| - 1].processType, processes[|processes| - 1])]
  }

  lemma {:induction false} LastWithPairs(processes: seq<ProcessBaseline>, processType: string)
    ensures OrderedMaps.LastWith(ProcessPairs(processes), processType) == LastProcess(processes, processType)
  {
    if |processes| > 0 {
      var ps := ProcessPairs(processes);
      assert ps[..|ps| - 1] == ProcessPairs(processes[..|processes| - 1]);
      LastWithPairs(processes[..|processes| - 1], processType);
    }
  }

  /** `EmissionsBaseline(year, total, process_baselines)`: a later duplicate process replaces an earlier one. */
  function NewEmissionsBaseline(year: int, totalEmissionsMt: real, processes: seq<ProcessBaseline>): (b: EmissionsBaseline)
    ensures b.year == year && b.totalEmissionsMt == totalEmissionsMt
    ensures OrderedMaps.DistinctKeys(b.processBaselines)
    ensures forall p :: OrderedMaps.Get(b.processBaselines, p) == LastProcess(processes, p)
  {
    var d := OrderedMaps.FromPairs(ProcessPairs(processes));
    OrderedMaps.FromPairsDistinct(ProcessPairs(processes));
    forall p
      ensures OrderedMaps.Get(d, p) == LastProcess(processes, p)
    {
      OrderedMaps.FromPairsGet(ProcessPairs(processes), p);
      LastWithPairs(processes, p);
    }
    EmissionsBaseline(year, totalEmissionsMt, d)
  }

  /**
   * The lookups of a constructed baseline: a listed process answers with its
   * last listing's production, emissions and band shares, an unlisted one
   * with 0.
   */
  lemma {:induction false} BuiltBaselineLookups(year: int, total: real, processes: seq<ProcessBaseline>, p: string, band: string)
    ensures var b := NewEmissionsBaseline(year, total, processes);
            match LastProcess(processes, p)
            case None =>
              b.GetProcessProduction(p) == 0.0 && b.GetProcessEmissions(p) == 0.0 && b.GetBandCapacity(p, band) == 0.0
            case Some(pb) =>
              b.GetProcessProduction(p) == pb.productionKt &&
              b.GetProcessEmissions(p) == pb.productionKt * pb.emissionIntensity / 1000.0 &&
              b.GetBandCapacity(p, band) == pb.productionKt * OrderedMaps.GetOr(pb.bandDistribution, band, 0.0)
  {
    var b := NewEmissionsBaseline(year, total, processes);
    assert OrderedMaps.Get(b.processBaselines, p) == LastProcess(processes, p);
  }

  function BandCapacities(b: EmissionsBaseline, processType: string, bands: seq<string>): (cs: seq<real>)
    ensures |cs| == |bands|
    ensures forall i :: 0 <= i < |bands| ==> cs[i] == b.GetBandCapacity(processType, bands[i])
  {
    seq(|bands|, i requires 0 <= i < |bands| => b.GetBandCapacity(processType, bands[i]))
  }

  lemma {:induction false} BandCapacityOfListedBand(b: EmissionsBaseline, processType: string, pb: ProcessBaseline, i: nat)
    requires OrderedMaps.Get(b.processBaselines, processType) == Some(pb)
    requires OrderedMaps.DistinctKeys(pb.bandDistribution)
    requires i < |pb.bandDistribution|
    ensures b.GetBandCapacity(processType, pb.bandDistribution[i].0) == pb.productionKt * pb.bandDistribution[i].1
  {
    OrderedMaps.GetOrAt(pb.bandDistribution, i, 0.0);
  }

  /** The band capacities a process's own table implies: production times each listed share. */
  lemma {:induction false} BandCapacitiesAreScaledShares(b: EmissionsBaseline, processType: string, pb: ProcessBaseline)
    requires OrderedMaps.Get(b.processBaselines, processType) == Some(pb)
    requires OrderedMaps.DistinctKeys(pb.bandDistribution)
    ensures BandCapacities(b, processType, OrderedMaps.Keys(pb.bandDistribution))
            == Scale(pb.productionKt, OrderedMaps.Values(pb.bandDistribution))
  {
    var caps := BandCapacities(b, processType, OrderedMaps.Keys(pb.bandDistribution));
    var shares := OrderedMaps.Values(pb.bandDistribution);
    var scaled := Scale(pb.productionKt, shares);
    forall i | 0 <= i < |caps|
      ensures caps[i] == scaled[i]
    {
      var k := OrderedMaps.Keys(pb.bandDistribution)[i];
      assert k == pb.bandDistribution[i].0;
      assert shares[i] == pb.bandDistribution[i].1;
      assert caps[i] == b.GetBandCapacity(processType, k);
      BandCapacityOfListedBand(b, processType, pb, i);
      assert caps[i] == pb.productionKt * pb.bandDistribution[i].1;
      ScaleAt(pb.productionKt, shares, i);
    }
  }

  /** When a process's band shares sum to 1, its band capacities add up to its production. */
  lemma {:induction false} BandCapacitiesPartitionProduction(b: EmissionsBaseline, processType: string, pb: ProcessBaseline)
    requires OrderedMaps.Get(b.processBaselines, processType) == Some(pb)
    requires OrderedMaps.DistinctKeys(pb.bandDistribution)
    requires Sum(OrderedMaps.Values(pb.bandDistribution)) == 1.0
    ensures Sum(BandCapacities(b, processType, OrderedMaps.Keys(pb.bandDistribution))) == pb.productionKt
  {
    var shares := OrderedMaps.Values(pb.bandDistribution);
    BandCapacitiesAreScaledShares(b, processType, pb);
    SumScale(pb.productionKt, shares);
    assert Sum(BandCapacities(b, processType, OrderedMaps.Keys(pb.bandDistribution))) == pb.productionKt * Sum(shares);
    ScaleByOne(pb.productionKt, Sum(shares));
  }

  lemma ScaleByOne(c: real, one: real)
    requires one == 1.0
    ensures c * one == c
  {
  }

  /** `{t.year: t.target_mt_co2 for t in targets}`: the last target for a year wins. */
  function TargetMap(targets: seq<EmissionsTarget>): (m: map<int, real>)
    ensures forall y :: y in m <==> exists i :: 0 <= i < |targets| && targets[i].year == y
  {
    if |targets| == 0 then map[]
    else
      var rest := TargetMap(targets[..|targets| - 1]);
      assert forall i :: 0 <= i < |targets| - 1 ==> targets[..|targets| - 1][i] == targets[i];
      rest[targets[|targets| - 1].year := targets[|targets| - 1].targetMtCo2]
  }

  lemma {:induction false} TargetMapLastWins(targets: seq<EmissionsTarget>, k: nat)
    requires k < |targets|
    requires forall j :: k < j < |targets| ==> targets[j].year != targets[k].year
    ensures TargetMap(targets)[targets[k].year] == targets[k].targetMtCo2
  {
    if k < |targets| - 1 {
      TargetMapLastWins(targets[..|targets| - 1], k);
    }
  }

  /**
   * The target a timeline year receives from the explicit targets `known`:
   * its own target, the baseline before the first target year, the last
   * target after the last one, and linear interpolation between the
   * bracketing target years otherwise.
   */
  ghost function TargetAt(known: map<int, real>, baselineTotal: real, year: int): real
    requires known != map[]
  {
    if year in known then known[year]
    else if year < SetMin(known.Keys) then baselineTotal
    else if year > SetMax(known.Keys) then known[SetMax(known.Keys)]
    else
      assert SetMin(known.Keys) in known && SetMax(known.Keys) in known;
      var lo := MaxKeyAtMost(known.Keys, year);
      var hi := MinKeyAtLeast(known.Keys, year);
      if lo == hi then known[lo] else Blend(lo, hi, known[lo], known[hi], year)
  }

  /** `lower * (1 - t) + upper * t` with `t = (year - lo) / (hi - lo)`. */
  function Blend(lo: int, hi: int, lower: real, upper: real, year: int): real
    requires lo != hi
  {
    var t := (year - lo) as real / (hi - lo) as real;
    lower * (1.0 - t) + upper * t
  }

  /** The target map after interpolation: explicit targets plus one entry per other timeline year. */
  ghost function Interpolated(known: map<int, real>, timeline: seq<int>, baselineTotal: real): map<int, real>
    requires known != map[]
  {
    known + map y | y in timeline && y !in known :: TargetAt(known, baselineTotal, y)
  }

  lemma {:induction false} InterpolationKeepsExplicitTargets(known: map<int, real>, timeline: seq<int>, baselineTotal: real, year: int)
    requires year in known
    ensures Interpolated(known, timeline, baselineTotal)[year] == known[year]
  {
  }

  lemma {:induction false} InterpolationCoversTimeline(known: map<int, real>, timeline: seq<int>, baselineTotal: real)
    requires known != map[]
    ensures Interpolated(known, timeline, baselineTotal).Keys == known.Keys + set y | y in timeline
  {
  }

  /** A timeline year without an explicit target gets the target `TargetAt` computes. */
  lemma InterpolatedOtherYear(known: map<int, real>, timeline: seq<int>, baselineTotal: real, year: int)
    requires known != map[] && year in timeline && year !in known
    ensures year in Interpolated(known, timeline, baselineTotal)
    ensures Interpolated(known, timeline, baselineTotal)[year] == TargetAt(known, baselineTotal, year)
  {
  }

  lemma {:induction false} InterpolationBeforeFirstTarget(known: map<int, real>, baselineTotal: real, year: int)
    requires known != map[]
    requires forall k :: k in known ==> year < k
    ensures TargetAt(known, baselineTotal, year) == baselineTotal
  {
  }

  lemma {:induction false} InterpolationAfterLastTarget(known: map<int, real>, baselineTotal: real, year: int, last: int)
    requires last in known
    requires forall k :: k in known ==> k <= last < year
    ensures TargetAt(known, baselineTotal, year) == known[last]
  {
    assert SetMax(known.Keys) == last;
  }

  /** Between two consecutive target years the target is their blend. */
  lemma {:induction false} InterpolationInside(known: map<int, real>, baselineTotal: real, year: int, lo: int, hi: int)
    requires lo in known && hi in known && lo < year < hi
    requires forall k :: k in known ==> k <= lo || k >= hi
    ensures TargetAt(known, baselineTotal, year) == Blend(lo, hi, known[lo], known[hi], year)
  {
    assert SetMin(known.Keys) <= lo && SetMax(known.Keys) >= hi;
    assert MaxKeyAtMost(known.Keys, year) == lo;
    assert MinKeyAtLeast(known.Keys, year) == hi;
  }

  lemma {:induction false} FractionInUnitInterval(year: int, lo: int, hi: int)
    requires lo < year < hi
    ensures 0.0 <= (year - lo) as real / (hi - lo) as real <= 1.0
  {
    var num := (year - lo) as real;
    var den := (hi - lo) as real;
    assert 0.0 < num < den;
    assert num / den * den == num;
  }

  /** Between two consecutive target years the interpolated target lies between their targets. */
  lemma {:induction false} InterpolationBetweenTargets(known: map<int, real>, baselineTotal: real, year: int, lo: int, hi: int)
    requires lo in known && hi in known && lo < year < hi
    requires forall k :: k in known ==> k <= lo || k >= hi
    ensures Min(known[lo], known[hi]) <= TargetAt(known, baselineTotal, year) <= Max(known[lo], known[hi])
  {
    assert year !in known;
    assert SetMin(known.Keys) <= lo && SetMax(known.Keys) >= hi;
    assert MaxKeyAtMost(known.Keys, year) == lo;
    assert MinKeyAtLeast(known.Keys, year) == hi;
    FractionInUnitInterval(year, lo, hi);
    LerpBetween(known[lo], known[hi], (year - lo) as real / (hi - lo) as real);
    assert TargetAt(known, baselineTotal, year) == Blend(lo, hi, known[lo], known[hi], year);
  }

  /** The targets a constructed scenario holds: the explicit ones, interpolated over the timeline when there are any. */
  ghost function ScenarioTargets(targetList: seq<EmissionsTarget>, timeline: seq<int>, baselineTotal: real): map<int, real>
  {
    var known := TargetMap(targetList);
    if known == map[] then known else Interpolated(known, timeline, baselineTotal)
  }

  /** Interpolation depends only on which years the timeline lists. */
  lemma {:induction false} SameMembersSameInterpolation(known: map<int, real>, a: seq<int>, b: seq<int>, baselineTotal: real)
    requires multiset(a) == multiset(b)
    ensures known != map[] ==> Interpolated(known, a, baselineTotal) == Interpolated(known, b, baselineTotal)
  {
    forall y
      ensures y in a <==> y in b
    {
      assert y in a <==> y in multiset(a);
      assert y in b <==> y in multiset(b);
    }
  }

  /**
   * Targets of 100 Mt in 2025 and 0 in 2050 over the timeline 2025-2050 with
   * a 120 Mt baseline: the constructed scenario targets 80 Mt in 2030, and
   * nothing fills a year outside the timeline.
   */
  lemma {:induction false} InterpolatedExample()
    ensures var timeline := seq(26, i requires 0 <= i < 26 => 2025 + i);
            var targets := ScenarioTargets([EmissionsTarget(2025, 100.0), EmissionsTarget(2050, 0.0)], timeline, 120.0);
            2030 in targets && targets[2030] == 80.0 && 2051 !in targets
  {
    var timeline := seq(26, i requires 0 <= i < 26 => 2025 + i);
    var list := [EmissionsTarget(2025, 100.0), EmissionsTarget(2050, 0.0)];
    var known := TargetMap(list);
    assert list[..1] == [list[0]];
    assert known == map[2025 := 100.0, 2050 := 0.0];
    assert timeline[5] == 2030;
    assert 2025 in known.Keys && 2025 <= 2030;
    assert 2050 in known.Keys && 2050 >= 2030;
    assert SetMin(known.Keys) == 2025;
    assert SetMax(known.Keys) == 2050;
    assert MaxKeyAtMost(known.Keys, 2030) == 2025;
    assert MinKeyAtLeast(known.Keys, 2030) == 2050;
    assert TargetAt(known, 120.0, 2030) == Blend(2025, 2050, 100.0, 0.0, 2030);
    assert Blend(2025, 2050, 100.0, 0.0, 2030) == 80.0;
  }

  datatype FeasibilityReport = FeasibilityReport(
    feasible: bool,
    infeasibleYears: seq<int>,
    maxRequired: real,
    maxAvailable: real)

  class EmissionsScenario {
    const baseline: EmissionsBaseline
    var targets: map<int, real>
    const timeline: seq<int>

    /** The timeline is kept sorted, as `sorted(timeline)` leaves it. */
    ghost predicate Valid()
    {
      Sorted(timeline)
    }

    /**
     * `EmissionsScenario(baseline, targets, timeline)`: stores the baseline,
     * the explicit targets (the last one for a year wins) and the sorted
     * timeline, then fills every timeline year by `_interpolate_targets`. The
     * source raises IndexError when there is no target at all and the
     * timeline is not empty; `Create` models that case.
     */
    constructor (baseline: EmissionsBaseline, targetList: seq<EmissionsTarget>, timeline: seq<int>)
      requires TargetMap(targetList) != map[] || |timeline| == 0
      ensures Valid()
      ensures this.baseline == baseline
      ensures targets == ScenarioTargets(targetList, timeline, baseline.totalEmissionsMt)
      ensures multiset(this.timeline) == multiset(timeline)
    {
      this.baseline := baseline;
      this.targets := TargetMap(targetList);
      this.timeline := SortInts(timeline);
      SortIntsProperties(timeline);
      new;
      var ok := InterpolateTargets();
      SameMembersSameInterpolation(TargetMap(targetList), this.timeline, timeline, baseline.totalEmissionsMt);
    }

    /** Building a scenario: IndexError exactly when there are no targets but a timeline to fill. */
    static method Create(baseline: EmissionsBaseline, targetList: seq<EmissionsTarget>, timeline: seq<int>)
      returns (r: Result<EmissionsScenario>)
      ensures r.Err? <==> TargetMap(targetList) == map[] && |timeline| > 0
      ensures r.Err? ==> r.error == IndexError
      ensures r.Ok? ==> fresh(r.value) && r.value.Valid() && r.value.baseline == baseline &&
                        r.value.targets == ScenarioTargets(targetList, timeline, baseline.totalEmissionsMt) &&
                        multiset(r.value.timeline) == multiset(timeline)
    {
      if TargetMap(targetList) == map[] && |timeline| > 0 {
        return Err(IndexError);
      }
      var sc := new EmissionsScenario(baseline, targetList, timeline);
      return Ok(sc);
    }

    /**
     * `_interpolate_targets`. Returns false where the source raises IndexError:
     * no explicit target at all and a non-empty timeline; then nothing changes.
     */
    method InterpolateTargets() returns (ok: bool)
      modifies this
      ensures ok <==> old(targets) != map[] || |timeline| == 0
      ensures ok && old(targets) != map[] ==> targets == Interpolated(old(targets), timeline, baseline.totalEmissionsMt)
      ensures !ok || old(targets) == map[] ==> targets == old(targets)
    {
      var targetYears := SortedKeys(targets.Keys);
      // Only the explicit years are ever read back, and those keep their values.
      var explicit := targets;
      ghost var known := targets;
      var base := baseline.totalEmissionsMt;
      var i := 0;
      while i < |timeline|
        invariant 0 <= i <= |timeline|
        invariant known == map[] ==> i == 0 && targets == known
        invariant forall y :: y in targetYears <==> y in known
        invariant targets.Keys == known.Keys + set y | y in timeline[..i]
        invariant forall y :: y in known ==> targets[y] == known[y]
        invariant known != map[] ==>
          forall y :: y in targets && y !in known ==> targets[y] == TargetAt(known, base, y)
      {
        var year := timeline[i];
        assert timeline[..i + 1] == timeline[..i] + [year];
        if year !in targets {
          if |targetYears| == 0 {
            assert known.Keys == {};
            assert known == map[];
            return false;
          }
          assert targetYears[0] in targetYears;
          assert explicit == known;
          var value := ResolveYear(explicit, targetYears, base, year);
          targets := targets[year := value];
        }
        i := i + 1;
      }
      assert timeline[..i] == timeline;
      ok := true;
      if known != map[] {
        assert targets == Interpolated(known, timeline, base);
      }
    }

    /** The loop body of `_interpolate_targets` for a year without a target. */
    static function ResolveYear(targets: map<int, real>, targetYears: seq<int>, base: real, year: int): (r: real)
      requires StrictlySorted(targetYears) && |targetYears| > 0
      requires forall y :: y in targetYears <==> y in targets
      requires targets != map[]
      requires year !in targets
      ensures r == TargetAt(targets, base, year)
    {
      SortedListingExtrema(targetYears, targets.Keys);
      if year < targetYears[0] then base
      else if year > targetYears[|targetYears| - 1] then targets[targetYears[|targetYears| - 1]]
      else
        var lower := MaxInt(NotAbove(targetYears, year));
        var upper := MinInt(NotBelow(targetYears, year));
        SortedListingBrackets(targetYears, targets.Keys, year);
        if lower == upper then targets[lower]
        else Blend(lower, upper, targets[lower], targets[upper], year)
    }

    /** `get_target_emissions`: the stored target, else the baseline total. */
    function GetTargetEmissions(year: int): (r: real)
      reads this
      ensures year in targets ==> r == targets[year]
      ensures year !in targets ==> r == baseline.totalEmissionsMt
    {
      if year in targets then targets[year] else baseline.totalEmissionsMt
    }

    /** `get_required_abatement`: the baseline's excess over the target, never negative. */
    function GetRequiredAbatement(year: int): (r: real)
      reads this
      ensures r >= 0.0
      ensures r >= baseline.totalEmissionsMt - GetTargetEmissions(year)
      ensures r == 0.0 <==> GetTargetEmissions(year) >= baseline.totalEmissionsMt
    {
      Max(0.0, baseline.totalEmissionsMt - GetTargetEmissions(year))
    }

    /** `get_abatement_trajectory`: the required abatement of every timeline year. */
    function GetAbatementTrajectory(): (m: map<int, real>)
      reads this
      ensures forall y :: y in m <==> y in timeline
      ensures forall y :: y in m ==> m[y] == GetRequiredAbatement(y) && m[y] >= 0.0
    {
      map y | y in timeline :: GetRequiredAbatement(y)
    }

    /** The timeline years of `years` whose requirement exceeds the potential, in order. */
    function InfeasibleYears(years: seq<int>, potential: real): (r: seq<int>)
      reads this
      ensures forall y :: y in r <==> y in years && GetRequiredAbatement(y) > potential
    {
      if |years| == 0 then []
      else
        var rest := InfeasibleYears(years[..|years| - 1], potential);
        assert forall y :: y in years <==> y in years[..|years| - 1] || y == years[|years| - 1];
        if GetRequiredAbatement(years[|years| - 1]) > potential then rest + [years[|years| - 1]] else rest
    }

    lemma {:induction false} InfeasibleYearsSorted(years: seq<int>, potential: real)
      requires Sorted(years)
      ensures Sorted(InfeasibleYears(years, potential))
    {
      if |years| > 0 {
        var init := years[..|years| - 1];
        InfeasibleYearsSorted(init, potential);
        var rest := InfeasibleYears(init, potential);
        forall k | 0 <= k < |rest|
          ensures rest[k] <= years[|years| - 1]
        {
          assert rest[k] in rest;
        }
      }
    }

    /** `validate_feasibility`. */
    method ValidateFeasibility(potential: real) returns (rep: FeasibilityReport)
      requires Valid()
      ensures rep.feasible <==> forall y :: y in timeline ==> GetRequiredAbatement(y) <= potential
      ensures rep.infeasibleYears == InfeasibleYears(timeline, potential)
      ensures Sorted(rep.infeasibleYears)
      ensures rep.maxRequired >= 0.0
      ensures forall y :: y in timeline ==> GetRequiredAbatement(y) <= rep.maxRequired
      ensures rep.maxRequired == 0.0 || exists y :: y in timeline && GetRequiredAbatement(y) == rep.maxRequired
      ensures rep.maxAvailable == potential
    {
      var feasible := true;
      var infeasible: seq<int> := [];
      var maxRequired := 0.0;
      var i := 0;
      while i < |timeline|
        invariant 0 <= i <= |timeline|
        invariant feasible <==> forall y :: y in timeline[..i] ==> GetRequiredAbatement(y) <= potential
        invariant infeasible == InfeasibleYears(timeline[..i], potential)
        invariant maxRequired >= 0.0
        invariant forall y :: y in timeline[..i] ==> GetRequiredAbatement(y) <= maxRequired
        invariant maxRequired == 0.0 || exists y :: y in timeline[..i] && GetRequiredAbatement(y) == maxRequired
      {
        var year := timeline[i];
        assert timeline[..i + 1] == timeline[..i] + [year];
        assert timeline[..i + 1][..i] == timeline[..i];
        var required := GetRequiredAbatement(year);
        maxRequired := Max(maxRequired, required);
        if required > potential {
          feasible := false;
          infeasible := infeasible + [year];
        }
        i := i + 1;
      }
      assert timeline[..i] == timeline;
      InfeasibleYearsSorted(timeline, potential);
      rep := FeasibilityReport(feasible, infeasible, maxRequired, potential);
    }
  }
}
