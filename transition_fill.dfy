/**
 * The greedy facility-transition fill shared by the two MACC optimisation
 * scripts: each deployed technology is spread over the eligible facilities,
 * taken in priority order, until the technology's average deployment share of
 * their total capacity is covered; the last facility may transition only in
 * part.
 */
module TransitionFill {

  import opened Wrappers
  import opened Reals
  import Sorting
  import Strings

  /** The product name of cross-cutting technologies, eligible at every facility. */
  const AllProducts: string := "All_Products"
  /** The industry total (Mt) the abatement rate is approximated against. */
  const IndustryTotalMt: real := 52.0
  const AgeReferenceYear: int := 2025

  /** A row of the facility emissions table. */
  datatype FacilityRecord = FacilityRecord(facilityId: string, company: string, location: string, product: string,
                                           startYear: int, capacityKt: real, annualEmissionsKt: real, intensity: real)

  // ------------------------------------------------------------ the fill

  /** One transitioned facility: its position in the priority order, the fraction and the capacity (kt). */
  datatype Step = Step(index: nat, fraction: real, capacityKt: real)

  /**
   * The fill from position `i` with `cumulative` kt already covered: while the
   * cover is below `target`, a facility that fits in the remainder transitions
   * fully, a larger one by the fraction remainder/capacity.
   */
  function FillFrom(caps: seq<real>, target: real, cumulative: real, i: nat): seq<Step>
    decreases |caps| - i
  {
    if i >= |caps| || cumulative >= target then []
    else
      var c := caps[i];
      var remaining := target - cumulative;
      var step := if c <= remaining then Step(i, 1.0, c) else Step(i, remaining / c, remaining);
      [step] + FillFrom(caps, target, cumulative + step.capacityKt, i + 1)
  }

  function Fill(caps: seq<real>, target: real): seq<Step>
  {
    FillFrom(caps, target, 0.0, 0)
  }

  /** The capacity the steps transition. */
  function Transitioned(steps: seq<Step>): real
  {
    if |steps| == 0 then 0.0 else steps[0].capacityKt + Transitioned(steps[1..])
  }

  /** A step transitions a fraction in (0, 1] of its facility, and that fraction of its capacity. */
  predicate PartOf(st: Step, capacityKt: real)
  {
    0.0 < st.fraction <= 1.0 && st.capacityKt == st.fraction * capacityKt
  }

  /**
   * The steps take a prefix of the priority order from `i`: every step is a
   * part of its facility, and only the last step may be partial.
   */
  lemma {:induction false} FillFromSteps(caps: seq<real>, target: real, cumulative: real, i: nat)
    ensures var s := FillFrom(caps, target, cumulative, i);
            i + |s| <= |caps| + (if i > |caps| then i - |caps| else 0) &&
            (forall k :: 0 <= k < |s| ==> s[k].index == i + k && i + k < |caps|) &&
            (forall k :: 0 <= k < |s| ==> PartOf(s[k], caps[i + k])) &&
            (forall k :: 0 <= k < |s| - 1 ==> s[k].fraction == 1.0)
    decreases |caps| - i
  {
    if i < |caps| && cumulative < target {
      var s := FillFrom(caps, target, cumulative, i);
      FirstStep(caps, target, cumulative, i);
      FillFromSteps(caps, target, cumulative + s[0].capacityKt, i + 1);
      assert s[1..] == FillFrom(caps, target, cumulative + s[0].capacityKt, i + 1);
    }
  }

  /** The first step of a fill that has not reached its target: a part of facility `i`, the only one when partial. */
  lemma FirstStep(caps: seq<real>, target: real, cumulative: real, i: nat)
    requires i < |caps| && cumulative < target
    ensures var s := FillFrom(caps, target, cumulative, i);
            |s| > 0 && s[0].index == i && PartOf(s[0], caps[i]) && (s[0].fraction < 1.0 ==> |s| == 1)
  {
    if caps[i] > target - cumulative {
      QuotientBetween(target - cumulative, 0.0, 1.0, caps[i]);
      QuotientTimesDivisor(target - cumulative, caps[i]);
    }
  }

  lemma QuotientTimesDivisor(a: real, n: real)
    requires n != 0.0
    ensures a / n * n == a
  {
  }

  /**
   * With non-negative capacities the fill covers the remaining target or the
   * remaining capacity, whichever is smaller.
   */
  lemma {:induction false} FillFromTotal(caps: seq<real>, target: real, cumulative: real, i: nat)
    requires forall k :: 0 <= k < |caps| ==> caps[k] >= 0.0
    requires cumulative <= target && i <= |caps|
    ensures Transitioned(FillFrom(caps, target, cumulative, i)) == Min(target - cumulative, Sum(caps[i..]))
    decreases |caps| - i
  {
    SumNonNegative(caps[i..]);
    if i < |caps| && cumulative < target {
      var c := caps[i];
      var remaining := target - cumulative;
      assert caps[i..] == [c] + caps[i + 1..];
      SumCons(c, caps[i + 1..]);
      SumNonNegative(caps[i + 1..]);
      if c <= remaining {
        FillFromTotal(caps, target, cumulative + c, i + 1);
      } else {
        FillFromTotal(caps, target, target, i + 1);
      }
    } else if i < |caps| {
      assert cumulative == target;
    } else {
      assert caps[i..] == [];
    }
  }

  /** The fill takes a prefix of the priority order. */
  lemma {:induction false} FillShape(caps: seq<real>, target: real)
    ensures |Fill(caps, target)| <= |caps|
    ensures forall k :: 0 <= k < |Fill(caps, target)| ==>
              Fill(caps, target)[k].index == k && PartOf(Fill(caps, target)[k], caps[k])
    ensures forall k :: 0 <= k < |Fill(caps, target)| - 1 ==> Fill(caps, target)[k].fraction == 1.0
  {
    FillFromSteps(caps, target, 0.0, 0);
  }

  /** The fill transitions `min(target, total capacity)`. */
  lemma {:induction false} FillTotal(caps: seq<real>, target: real)
    requires forall k :: 0 <= k < |caps| ==> caps[k] >= 0.0
    requires target >= 0.0
    ensures Transitioned(Fill(caps, target)) == Min(target, Sum(caps))
  {
    FillFromTotal(caps, target, 0.0, 0);
    assert caps[0..] == caps;
  }

  /** The loop of the fill, with its early exit once the target is covered. */
  method GreedyFill(caps: seq<real>, target: real) returns (steps: seq<Step>)
    ensures steps == Fill(caps, target)
  {
    steps := [];
    var cumulative := 0.0;
    var i := 0;
    while i < |caps|
      invariant 0 <= i <= |caps|
      invariant steps + FillFrom(caps, target, cumulative, i) == Fill(caps, target)
    {
      if cumulative < target {
        var facilityCapacity := caps[i];
        var remaining := target - cumulative;
        var step;
        if facilityCapacity <= remaining {
          step := Step(i, 1.0, facilityCapacity);
        } else {
          step := Step(i, remaining / facilityCapacity, remaining);
        }
        steps := steps + [step];
        cumulative := cumulative + step.capacityKt;
        if cumulative >= target {
          assert FillFrom(caps, target, cumulative, i + 1) == [];
          return;
        }
      }
      i := i + 1;
    }
  }

  // ------------------------------------------------------------ deployments

  /** A row of the optimisation results table. */
  datatype ResultRow = ResultRow(techId: string, product: string, year: int, deploymentLevel: real,
                                 abatementMt: real, costPerTon: real)

  /** The rows of one technology, in table order. */
  function RowsOf(results: seq<ResultRow>, techId: string): (rs: seq<ResultRow>)
    ensures forall r :: r in rs <==> r in results && r.techId == techId
  {
    if |results| == 0 then []
    else RowsOf(results[..|results| - 1], techId) +
         (if results[|results| - 1].techId == techId then [results[|results| - 1]] else [])
  }

  function Levels(rs: seq<ResultRow>): (ls: seq<real>)
    ensures |ls| == |rs| && forall i :: 0 <= i < |rs| ==> ls[i] == rs[i].deploymentLevel
  {
    seq(|rs|, i requires 0 <= i < |rs| => rs[i].deploymentLevel)
  }

  function Abatements(rs: seq<ResultRow>): (ls: seq<real>)
    ensures |ls| == |rs| && forall i :: 0 <= i < |rs| ==> ls[i] == rs[i].abatementMt
  {
    seq(|rs|, i requires 0 <= i < |rs| => rs[i].abatementMt)
  }

  function MinYear(rs: seq<ResultRow>): (y: int)
    requires |rs| > 0
    ensures exists i :: 0 <= i < |rs| && rs[i].year == y
    ensures forall i :: 0 <= i < |rs| ==> y <= rs[i].year
  {
    if |rs| == 1 then rs[0].year
    else
      var m := MinYear(rs[..|rs| - 1]);
      assert forall i :: 0 <= i < |rs| - 1 ==> rs[..|rs| - 1][i] == rs[i];
      if rs[|rs| - 1].year < m then rs[|rs| - 1].year else m
  }

  /**
   * One technology's aggregate: first deployment year, mean deployment level,
   * first product, and the abatement and cost of its first row together with
   * its mean abatement.
   */
  datatype TechDeployment = TechDeployment(techId: string, startYear: int, avgDeployment: real, product: string,
                                           firstAbatementMt: real, avgAbatementMt: real, costPerTon: real)

  function Mean(xs: seq<real>): real
    requires |xs| > 0
  {
    Sum(xs) / |xs| as real
  }

  function DeploymentOf(results: seq<ResultRow>, techId: string): (d: TechDeployment)
    requires techId in TechIds(results)
    ensures d.techId == techId
  {
    var rs := RowsOf(results, techId);
    assert |rs| > 0 by {
      var k :| 0 <= k < |results| && TechIds(results)[k] == techId;
      assert results[k] in rs;
    }
    TechDeployment(techId, MinYear(rs), Mean(Levels(rs)), rs[0].product, rs[0].abatementMt,
                   Mean(Abatements(rs)), rs[0].costPerTon)
  }

  function TechIds(results: seq<ResultRow>): (ids: seq<string>)
    ensures |ids| == |results| && forall i :: 0 <= i < |results| ==> ids[i] == results[i].techId
  {
    seq(|results|, i requires 0 <= i < |results| => results[i].techId)
  }

  /**
   * `groupby('TechID').agg(...)`: one aggregate per technology in ascending
   * name order. A results table with no rows has no `TechID` column (KeyError).
   */
  function TechDeployments(results: seq<ResultRow>): (r: Result<seq<TechDeployment>>)
    ensures r.Err? <==> |results| == 0
    ensures r.Err? ==> r.error == KeyError
    ensures r.Ok? ==> |r.value| == |Strings.SortedUnique(TechIds(results))| &&
                      forall i :: 0 <= i < |r.value| ==> r.value[i].techId == Strings.SortedUnique(TechIds(results))[i]
  {
    if |results| == 0 then Err(KeyError)
    else
      var ids := Strings.SortedUnique(TechIds(results));
      Ok(seq(|ids|, i requires 0 <= i < |ids| => DeploymentOf(results, ids[i])))
  }

  /** Each technology appears once, and in ascending name order. */
  lemma {:induction false} TechDeploymentsOrdered(results: seq<ResultRow>)
    requires TechDeployments(results).Ok?
    ensures var ds := TechDeployments(results).value;
            (forall i, j :: 0 <= i < j < |ds| ==> Strings.Lt(ds[i].techId, ds[j].techId)) &&
            (forall r :: r in results ==> exists i :: 0 <= i < |ds| && ds[i].techId == r.techId)
  {
    var ids := Strings.SortedUnique(TechIds(results));
    Strings.SortedUniqueSorted(TechIds(results));
    forall r | r in results
      ensures exists i :: 0 <= i < |ids| && ids[i] == r.techId
    {
      var k :| 0 <= k < |results| && results[k] == r;
      assert TechIds(results)[k] == r.techId;
      assert r.techId in ids;
    }
  }

  // ------------------------------------------------------------ transitions

  /** A row of the facility transition table. */
  datatype TransitionRow = TransitionRow(facilityId: string, company: string, location: string, product: string,
                                         techId: string, transitionYear: int, fraction: real, capacityKt: real,
                                         emissionsBeforeKt: real, emissionsAfterKt: real, abatementMt: real,
                                         annualCostUsd: real, costPerTon: real, age2025: int, intensity: real)

  /** The facilities a technology can transition: all for a cross-cutting technology, else those of its product. */
  function Eligible(facilities: seq<FacilityRecord>, product: string): (e: seq<FacilityRecord>)
    ensures product == AllProducts ==> e == facilities
    ensures product != AllProducts ==> forall f :: f in e <==> f in facilities && f.product == product
  {
    if product == AllProducts then facilities
    else if |facilities| == 0 then []
    else
      var rest := Eligible(facilities[..|facilities| - 1], product);
      var f := facilities[|facilities| - 1];
      assert forall g :: g in facilities <==> g in facilities[..|facilities| - 1] || g == f;
      rest + (if f.product == product then [f] else [])
  }

  function Capacities(fs: seq<FacilityRecord>): (cs: seq<real>)
    ensures |cs| == |fs| && forall i :: 0 <= i < |fs| ==> cs[i] == fs[i].capacityKt
  {
    seq(|fs|, i requires 0 <= i < |fs| => fs[i].capacityKt)
  }

  /** A facility's transition: the fraction of its emissions, reduced by the technology's abatement rate. */
  function TransitionOf(f: FacilityRecord, d: TechDeployment, step: Step, abatementRate: real): TransitionRow
  {
    var before := f.annualEmissionsKt * step.fraction;
    var after := before * (1.0 - abatementRate);
    var abatement := (before - after) / 1000.0;
    TransitionRow(f.facilityId, f.company, f.location, f.product, d.techId, d.startYear, step.fraction,
                  step.capacityKt, before, after, abatement, abatement * d.costPerTon * 1000000.0, d.costPerTon,
                  AgeReferenceYear - f.startYear, f.intensity)
  }

  /** The abatement of a transition is the rate times the transitioned emissions, in Mt. */
  lemma {:induction false} TransitionAbatement(f: FacilityRecord, d: TechDeployment, step: Step, abatementRate: real)
    ensures var t := TransitionOf(f, d, step, abatementRate);
            t.abatementMt == f.annualEmissionsKt * step.fraction * abatementRate / 1000.0 &&
            t.emissionsBeforeKt - t.emissionsAfterKt == 1000.0 * t.abatementMt
  {
  }

  /** The capacity (kt) a technology transitions: its average deployment share of the eligible capacity. */
  function ShareTarget(ordered: seq<FacilityRecord>, d: TechDeployment): real
  {
    Sum(Capacities(ordered)) * d.avgDeployment
  }

  /** The fill of one technology over its ordered eligible facilities. */
  function StepsFor(ordered: seq<FacilityRecord>, d: TechDeployment): (s: seq<Step>)
    ensures |s| <= |ordered|
    ensures forall k :: 0 <= k < |s| ==> s[k].index == k && 0.0 < s[k].fraction <= 1.0
  {
    FillShape(Capacities(ordered), ShareTarget(ordered, d));
    Fill(Capacities(ordered), ShareTarget(ordered, d))
  }

  /** The transitions of one technology: the k-th step is the k-th facility of the order. */
  function TransitionsFor(ordered: seq<FacilityRecord>, d: TechDeployment, abatementRate: real): (ts: seq<TransitionRow>)
    ensures |ts| == |StepsFor(ordered, d)|
    ensures forall k :: 0 <= k < |ts| ==> ts[k] == TransitionOf(ordered[k], d, StepsFor(ordered, d)[k], abatementRate)
  {
    var steps := StepsFor(ordered, d);
    seq(|steps|, k requires 0 <= k < |steps| => TransitionOf(ordered[k], d, steps[k], abatementRate))
  }

  /**
   * With non-negative capacities and a deployment share in [0, 1], a
   * technology transitions exactly that share of its eligible capacity, and
   * the facilities it touches are a prefix of the priority order, each by a
   * fraction in (0, 1].
   */
  lemma {:induction false} TransitionsCoverShare(ordered: seq<FacilityRecord>, d: TechDeployment, abatementRate: real)
    requires forall f :: f in ordered ==> f.capacityKt >= 0.0
    requires 0.0 <= d.avgDeployment <= 1.0
    ensures var ts := TransitionsFor(ordered, d, abatementRate);
            |ts| <= |ordered| &&
            (forall k :: 0 <= k < |ts| ==> ts[k].facilityId == ordered[k].facilityId && 0.0 < ts[k].fraction <= 1.0)
    ensures Transitioned(StepsFor(ordered, d)) == ShareTarget(ordered, d)
  {
    var caps := Capacities(ordered);
    assert forall k :: 0 <= k < |caps| ==> caps[k] >= 0.0 by {
      forall k | 0 <= k < |caps| ensures caps[k] >= 0.0 {
        assert ordered[k] in ordered;
      }
    }
    SumNonNegative(caps);
    var target := ShareTarget(ordered, d);
    assert target <= Sum(caps) by {
      assert Sum(caps) - target == Sum(caps) * (1.0 - d.avgDeployment);
      MulNonNegative(Sum(caps), 1.0 - d.avgDeployment);
    }
    MulNonNegative(Sum(caps), d.avgDeployment);
    FillTotal(caps, target);
  }

  /**
   * `analyze_facility_transitions`, given the priority order `before` and the
   * abatement rate each script uses: one block of transitions per deployed
   * technology, skipping technologies with no eligible facility.
   */
  function AllTransitions(facilities: seq<FacilityRecord>, ds: seq<TechDeployment>,
                          before: (FacilityRecord, FacilityRecord) -> bool, rate: TechDeployment -> real): seq<TransitionRow>
  {
    if |ds| == 0 then []
    else
      AllTransitions(facilities, ds[..|ds| - 1], before, rate) + Block(facilities, ds[|ds| - 1], before, rate)
  }

  /** One technology's rows: none without an eligible facility, else the fill over them in priority order. */
  function Block(facilities: seq<FacilityRecord>, d: TechDeployment,
                 before: (FacilityRecord, FacilityRecord) -> bool, rate: TechDeployment -> real): seq<TransitionRow>
  {
    var eligible := Eligible(facilities, d.product);
    if |eligible| == 0 then [] else TransitionsFor(Sorting.SortBy(eligible, before), d, rate(d))
  }

  /** The transitions of one block are of its technology and of facilities in its order. */
  lemma {:induction false} TransitionsForFacilities(ordered: seq<FacilityRecord>, d: TechDeployment, abatementRate: real)
    ensures forall t :: t in TransitionsFor(ordered, d, abatementRate) ==>
              t.techId == d.techId && exists f :: f in ordered && t.facilityId == f.facilityId
  {
    var ts := TransitionsFor(ordered, d, abatementRate);
    forall t | t in ts
      ensures t.techId == d.techId && exists f :: f in ordered && t.facilityId == f.facilityId
    {
      var k :| 0 <= k < |ts| && ts[k] == t;
      assert ordered[k] in ordered;
    }
  }

  /** Every transition is of a facility eligible for its technology. */
  lemma {:induction false} TransitionsEligible(facilities: seq<FacilityRecord>, ds: seq<TechDeployment>,
                                               before: (FacilityRecord, FacilityRecord) -> bool,
                                               rate: TechDeployment -> real)
    ensures forall t :: t in AllTransitions(facilities, ds, before, rate) ==> EligibleTransition(t, facilities, ds)
  {
    if |ds| > 0 {
      var init := ds[..|ds| - 1];
      TransitionsEligible(facilities, init, before, rate);
      BlockEligible(facilities, ds[|ds| - 1], before, rate);
      forall t | t in AllTransitions(facilities, ds, before, rate)
        ensures EligibleTransition(t, facilities, ds)
      {
        if t in AllTransitions(facilities, init, before, rate) {
          var d, f :| d in init && f in facilities && t.techId == d.techId && t.facilityId == f.facilityId &&
                      (d.product == AllProducts || f.product == d.product);
          assert d in ds;
        } else {
          assert ds[|ds| - 1] in ds;
        }
      }
    }
  }

  /** A transition row names a listed technology and a listed facility eligible for it. */
  predicate EligibleTransition(t: TransitionRow, facilities: seq<FacilityRecord>, ds: seq<TechDeployment>)
  {
    exists d, f :: d in ds && f in facilities && t.techId == d.techId && t.facilityId == f.facilityId &&
                   (d.product == AllProducts || f.product == d.product)
  }

  lemma {:induction false} BlockEligible(facilities: seq<FacilityRecord>, d: TechDeployment,
                                         before: (FacilityRecord, FacilityRecord) -> bool, rate: TechDeployment -> real)
    ensures forall t :: t in Block(facilities, d, before, rate) ==>
              t.techId == d.techId &&
              exists f :: f in facilities && t.facilityId == f.facilityId && (d.product == AllProducts || f.product == d.product)
  {
    var eligible := Eligible(facilities, d.product);
    if |eligible| > 0 {
      var ordered := Sorting.SortBy(eligible, before);
      TransitionsForFacilities(ordered, d, rate(d));
      forall f | f in ordered
        ensures f in eligible
      {
        assert f in multiset(ordered);
      }
    }
  }

  /** One technology's block: its eligible facilities in priority order, filled by GreedyFill. */
  method TransitionTechnology(facilities: seq<FacilityRecord>, d: TechDeployment,
                              before: (FacilityRecord, FacilityRecord) -> bool, abatementRate: real)
    returns (block: seq<TransitionRow>)
    ensures var eligible := Eligible(facilities, d.product);
            block == if |eligible| == 0 then [] else TransitionsFor(Sorting.SortBy(eligible, before), d, abatementRate)
  {
    var eligible := Eligible(facilities, d.product);
    if |eligible| == 0 {
      return [];
    }
    var ordered := Sorting.SortBy(eligible, before);
    var steps := GreedyFill(Capacities(ordered), ShareTarget(ordered, d));
    assert steps == StepsFor(ordered, d);
    block := seq(|steps|, k requires 0 <= k < |steps| => TransitionOf(ordered[k], d, steps[k], abatementRate));
  }

  /** The loop over the deployed technologies, each filled by GreedyFill. */
  method AnalyzeTransitions(facilities: seq<FacilityRecord>, results: seq<ResultRow>,
                            before: (FacilityRecord, FacilityRecord) -> bool, rate: TechDeployment -> real)
    returns (r: Result<seq<TransitionRow>>)
    ensures r.Err? <==> |results| == 0
    ensures r.Err? ==> r.error == KeyError
    ensures r.Ok? ==> r.value == AllTransitions(facilities, TechDeployments(results).value, before, rate)
  {
    var deployments := TechDeployments(results);
    if deployments.Err? {
      return Err(deployments.error);
    }
    var ds := deployments.value;
    var rows: seq<TransitionRow> := [];
    var i := 0;
    while i < |ds|
      invariant 0 <= i <= |ds|
      invariant rows == AllTransitions(facilities, ds[..i], before, rate)
    {
      assert ds[..i + 1][..i] == ds[..i];
      var block := TransitionTechnology(facilities, ds[i], before, rate(ds[i]));
      rows := rows + block;
      i := i + 1;
    }
    assert ds[..i] == ds;
    r := Ok(rows);
  }
}
