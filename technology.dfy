/**
 * Abatement technologies: cost and constraint records, the levelised cost of
 * abatement, the deployment cap for a year, band applicability and the two
 * specialised constructors (band-to-band transitions and alternatives).
 */
module Technology {

  import opened Wrappers
  import opened Reals
  import Finance

  datatype TechBand = HT | MT | LT

  /** The enum's value string. */
  function BandValue(b: TechBand): (s: string)
    ensures |s| == 2
  {
    match b
    case HT => "HT"
    case MT => "MT"
    case LT => "LT"
  }

  /** `TechBand(s)`: None where the enum lookup raises ValueError. */
  function ParseBand(s: string): (r: Option<TechBand>)
  {
    if s == "HT" then Some(HT)
    else if s == "MT" then Some(MT)
    else if s == "LT" then Some(LT)
    else None
  }

  /** Parsing inverts BandValue, and only the three value strings parse. */
  lemma {:induction false} ParseBandRoundTrip(b: TechBand, s: string)
    ensures ParseBand(BandValue(b)) == Some(b)
    ensures ParseBand(s) == Some(b) <==> s == BandValue(b)
  {
  }

  datatype TechType = Transition | Alternative

  /** Which Python class built the object: what `isinstance` tests. */
  datatype TechClass = PlainTechnology | TransitionClass | AlternativeClass

  datatype CostStructure = CostStructure(
    capexUsdPerKt: real,
    opexDeltaUsdPerT: real,
    maintenancePct: real,
    fuelCostUsdPerGj: Option<real>)

  datatype TechnologyConstraints = TechnologyConstraints(
    lifetimeYears: int,
    startYear: int,
    rampRatePerYear: real,
    maxApplicability: real,
    technicalReadinessLevel: int)

  datatype Technology = Technology(
    techId: string,
    name: string,
    processType: string,
    techType: TechType,
    costStructure: CostStructure,
    constraints: TechnologyConstraints,
    emissionFactor: real,
    abatementPotential: real,
    fromBand: Option<TechBand>,
    toBand: Option<TechBand>,
    kind: TechClass,
    baselineDisplacement: seq<string>)
  {
    /** `calculate_lcoa(discount_rate)` in USD per t CO2. */
    function Lcoa(discountRate: real): (r: Result<ExtReal>)
      ensures r == Ok(Infinite) <==> abatementPotential <= 0.0
      ensures abatementPotential > 0.0 && Finance.Crf(discountRate, constraints.lifetimeYears).Ok? ==>
                r.Ok? && r.value.Finite? &&
                r.value.v * abatementPotential ==
                  costStructure.capexUsdPerKt * Finance.Crf(discountRate, constraints.lifetimeYears).value / 1000.0
                  + costStructure.opexDeltaUsdPerT
      ensures r.Err? <==> abatementPotential > 0.0 && Finance.Crf(discountRate, constraints.lifetimeYears).Err?
    {
      Finance.LevelizedCost(costStructure.capexUsdPerKt, costStructure.opexDeltaUsdPerT,
                            abatementPotential, discountRate, constraints.lifetimeYears)
    }

    /** `calculate_lcoa()` with its default rate of 5%. */
    function DefaultLcoa(): Result<ExtReal>
    {
      Lcoa(0.05)
    }

    /** `get_max_deployment(year, baseline_capacity)` in kt per year: 0 before the start year, then the smaller of the two caps. */
    function MaxDeployment(year: int, baselineCapacity: real): (r: real)
      ensures year < constraints.startYear ==> r == 0.0
      ensures year >= constraints.startYear ==>
                r <= baselineCapacity * constraints.maxApplicability &&
                r <= baselineCapacity * constraints.rampRatePerYear * (year - constraints.startYear + 1) as real
      ensures year >= constraints.startYear ==>
                r == baselineCapacity * constraints.maxApplicability ||
                r == baselineCapacity * constraints.rampRatePerYear * (year - constraints.startYear + 1) as real
    {
      Finance.DeploymentCap(year, constraints.startYear, baselineCapacity,
                            constraints.rampRatePerYear, constraints.maxApplicability)
    }

    /** `is_applicable_to_band`. */
    predicate IsApplicableToBand(band: TechBand)
    {
      if techType == Transition then fromBand == Some(band) else true
    }
  }

  /** An alternative applies to every band; a transition to its source band and no other. */
  lemma {:induction false} ApplicabilityByType(t: Technology, b1: TechBand, b2: TechBand)
    ensures t.techType == Alternative ==> t.IsApplicableToBand(b1)
    ensures t.techType == Transition && t.IsApplicableToBand(b1) && t.IsApplicableToBand(b2) ==> b1 == b2
    ensures t.techType == Transition ==> (t.IsApplicableToBand(b1) <==> t.fromBand == Some(b1))
  {
  }

  /** A cap on deployment never exceeds the applicability share, and grows with the year. */
  lemma {:induction false} MaxDeploymentBounded(t: Technology, y1: int, y2: int, baselineCapacity: real)
    requires y1 <= y2
    requires baselineCapacity >= 0.0
    requires t.constraints.rampRatePerYear >= 0.0 && t.constraints.maxApplicability >= 0.0
    ensures 0.0 <= t.MaxDeployment(y1, baselineCapacity) <= t.MaxDeployment(y2, baselineCapacity)
    ensures t.MaxDeployment(y2, baselineCapacity) <= baselineCapacity * t.constraints.maxApplicability
  {
    Finance.DeploymentCapMonotone(y1, y2, t.constraints.startYear, baselineCapacity,
                                  t.constraints.rampRatePerYear, t.constraints.maxApplicability);
    MulNonNegative(baselineCapacity, t.constraints.maxApplicability);
  }

  /** The generated name of a transition: process, source band and target band. */
  function TransitionName(processType: string, fromBand: TechBand, toBand: TechBand): (n: string)
    ensures |n| == |processType| + 9
  {
    processType + "_" + BandValue(fromBand) + "_to_" + BandValue(toBand)
  }

  /** Two transitions of one process share a name only if they share both bands. */
  lemma {:induction false} TransitionNameInjective(processType: string, f1: TechBand, t1: TechBand, f2: TechBand, t2: TechBand)
    requires TransitionName(processType, f1, t1) == TransitionName(processType, f2, t2)
    ensures f1 == f2 && t1 == t2
  {
    var n1 := TransitionName(processType, f1, t1);
    var n2 := TransitionName(processType, f2, t2);
    var k := |processType|;
    assert n1[k + 1..k + 3] == BandValue(f1);
    assert n2[k + 1..k + 3] == BandValue(f2);
    assert n1[k + 7..k + 9] == BandValue(t1);
    assert n2[k + 7..k + 9] == BandValue(t2);
    ParseBandRoundTrip(f1, BandValue(f2));
    ParseBandRoundTrip(t1, BandValue(t2));
    ParseBandRoundTrip(f2, BandValue(f2));
    ParseBandRoundTrip(t2, BandValue(t2));
  }

  /** `TechnologyTransition(...)`. */
  function NewTransition(techId: string, processType: string, fromBand: TechBand, toBand: TechBand,
                         abatementPerT: real, costStructure: CostStructure,
                         constraints: TechnologyConstraints): (t: Technology)
    ensures t.techType == Transition && t.kind == TransitionClass
    ensures t.name == TransitionName(processType, fromBand, toBand)
    ensures t.abatementPotential == abatementPerT && t.emissionFactor == 0.0
    ensures t.fromBand == Some(fromBand) && t.toBand == Some(toBand)
    ensures forall b :: t.IsApplicableToBand(b) <==> b == fromBand
  {
    Technology(techId, TransitionName(processType, fromBand, toBand), processType, Transition,
               costStructure, constraints, 0.0, abatementPerT, Some(fromBand), Some(toBand),
               TransitionClass, [])
  }

  /**
   * `AlternativeTechnology(...)`: the abatement is measured against a
   * baseline factor of 1.0 and clamped at 0; a missing or empty displacement
   * list becomes the empty list.
   */
  function NewAlternative(techId: string, name: string, processType: string, emissionFactor: real,
                          costStructure: CostStructure, constraints: TechnologyConstraints,
                          baselineDisplacement: Option<seq<string>>): (t: Technology)
    ensures t.techType == Alternative && t.kind == AlternativeClass
    ensures t.abatementPotential >= 0.0
    ensures t.abatementPotential >= 1.0 - emissionFactor
    ensures t.abatementPotential == 0.0 || t.abatementPotential == 1.0 - emissionFactor
    ensures baselineDisplacement.None? ==> t.baselineDisplacement == []
    ensures baselineDisplacement.Some? ==> t.baselineDisplacement == baselineDisplacement.value
    ensures t.fromBand.None? && t.toBand.None?
    ensures forall b :: t.IsApplicableToBand(b)
  {
    Technology(techId, name, processType, Alternative, costStructure, constraints, emissionFactor,
               Max(0.0, 1.0 - emissionFactor), None, None, AlternativeClass,
               baselineDisplacement.GetOr([]))
  }

  /** An alternative has a finite LCOA exactly when its emission factor is below the 1.0 baseline. */
  lemma {:induction false} AlternativeLcoaFinite(techId: string, name: string, processType: string, emissionFactor: real,
                              costStructure: CostStructure, constraints: TechnologyConstraints,
                              displacement: Option<seq<string>>, rate: real)
    requires Finance.Crf(rate, constraints.lifetimeYears).Ok?
    ensures var t := NewAlternative(techId, name, processType, emissionFactor, costStructure, constraints, displacement);
            t.Lcoa(rate).Ok? && (t.Lcoa(rate).value.Finite? <==> emissionFactor < 1.0)
  {
  }
}
