/**
 * The earlier technology record: no technology type or bands, an optional
 * abatement potential that defaults to 0.0, and the same LCOA and deployment
 * cap as the current record.
 */
module LegacyTechnology {

  import opened Wrappers
  import opened Reals
  import Finance
  import Current = Technology

  datatype Technology = Technology(
    techId: string,
    name: string,
    processType: string,
    costStructure: Current.CostStructure,
    constraints: Current.TechnologyConstraints,
    emissionFactor: real,
    abatementPotential: real,
    baselineDisplacement: seq<string>)
  {
    /** `calculate_lcoa(discount_rate)` in USD per t CO2. */
    function Lcoa(discountRate: real): (r: Result<ExtReal>)
      ensures r == Ok(Infinite) <==> abatementPotential <= 0.0
      ensures abatementPotential > 0.0 && Finance.Crf(discountRate, constraints.lifetimeYears).Ok? ==>
                r.Ok? && r.value.Finite? &&
                r.value.v * abatementPotential ==
                  costStructure.capexUsdPerKt * Finance.Crf(discountRate, constraints.lifetimeYears).value / 1000.0
                  + costStructure.opexDeltaUsdPerT
      ensures r.Err? <==> abatementPotential > 0.0 && Finance.Crf(discountRate, constraints.lifetimeYears).Err?
    {
      Finance.LevelizedCost(costStructure.capexUsdPerKt, costStructure.opexDeltaUsdPerT,
                            abatementPotential, discountRate, constraints.lifetimeYears)
    }

    /** `get_max_deployment(year, baseline_capacity)` in kt per year. */
    function MaxDeployment(year: int, baselineCapacity: real): (r: real)
      ensures year < constraints.startYear ==> r == 0.0
      ensures year >= constraints.startYear ==>
                r <= baselineCapacity * constraints.maxApplicability &&
                r <= baselineCapacity * constraints.rampRatePerYear * (year - constraints.startYear + 1) as real
      ensures year >= constraints.startYear ==>
                r == baselineCapacity * constraints.maxApplicability ||
                r == baselineCapacity * constraints.rampRatePerYear * (year - constraints.startYear + 1) as real
    {
      Finance.DeploymentCap(year, constraints.startYear, baselineCapacity,
                            constraints.rampRatePerYear, constraints.maxApplicability)
    }
  }

  /** The constructor: omitted keyword arguments take their defaults (abatement 0.0, no displacement). */
  function NewTechnology(techId: string, name: string, processType: string,
                         costStructure: Current.CostStructure,
                         constraints: Current.TechnologyConstraints, emissionFactor: real,
                         abatementPotential: Option<real>,
                         baselineDisplacement: Option<seq<string>>): (t: Technology)
    ensures abatementPotential.None? ==> t.abatementPotential == 0.0
    ensures abatementPotential.Some? ==> t.abatementPotential == abatementPotential.value
    ensures baselineDisplacement.None? ==> t.baselineDisplacement == []
    ensures baselineDisplacement.Some? ==> t.baselineDisplacement == baselineDisplacement.value
  {
    Technology(techId, name, processType, costStructure, constraints, emissionFactor,
               abatementPotential.GetOr(0.0), baselineDisplacement.GetOr([]))
  }

  /** A technology built without an abatement potential has an infinite LCOA at every rate. */
  lemma {:induction false} DefaultAbatementGivesInfiniteLcoa(techId: string, name: string, processType: string,
                                          costStructure: Current.CostStructure,
                                          constraints: Current.TechnologyConstraints,
                                          emissionFactor: real, displacement: Option<seq<string>>, rate: real)
    ensures NewTechnology(techId, name, processType, costStructure, constraints, emissionFactor, None, displacement)
              .Lcoa(rate) == Ok(Infinite)
  {
  }

  /** The two records price abatement identically for the same costs, constraints and potential. */
  lemma {:induction false} SameLcoaAsCurrent(legacy: Technology, current: Current.Technology, rate: real)
    requires legacy.costStructure == current.costStructure && legacy.constraints == current.constraints
    requires legacy.abatementPotential == current.abatementPotential
    ensures legacy.Lcoa(rate) == current.Lcoa(rate)
    ensures forall y, c :: legacy.MaxDeployment(y, c) == current.MaxDeployment(y, c)
  {
  }
}
