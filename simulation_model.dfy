/**
 * The yearly simulation script: every facility paired with every
 * technology of its groups, the levelised cost of abatement of each pair,
 * the marginal abatement cost curve of a year, the heuristic deployment
 * pathway (a fixed yearly ramp applied to every option costing at most
 * 100 USD per t CO2) and the technology shares along that pathway. The
 * workbook's sheets are parameters.
 */
module SimulationModel {
  import opened Wrappers
  import opened Reals
  import Finance
  import Strings
  import Sorting
  import FacilityV3
  import OptimizationV2

  // ---------------------------------------------------------------------
  // Nearest-year lookups
  // ---------------------------------------------------------------------

  function Distance(a: int, b: int): nat
  {
    if a >= b then a - b else b - a
  }

  /**
   * `(df['Year'] - year).abs().argsort()[:1]`: the first row whose year is
   * nearest `year`; equally near rows keep table order.
   */
  function NearestIndex<T>(rows: seq<T>, yearOf: T -> int, year: int): (k: nat)
    requires |rows| > 0
    ensures k < |rows|
    ensures forall j :: 0 <= j < |rows| ==> Distance(yearOf(rows[k]), year) <= Distance(yearOf(rows[j]), year)
    ensures forall j :: 0 <= j < k ==> Distance(yearOf(rows[k]), year) < Distance(yearOf(rows[j]), year)
    decreases |rows|
  {
    if |rows| == 1 then 0
    else
      var k := NearestIndex(rows[..|rows| - 1], yearOf, year);
      if Distance(yearOf(rows[|rows| - 1]), year) < Distance(yearOf(rows[k]), year) then |rows| - 1 else k
  }

  /**
   * The row a year's lookup reads: the first row of that year, else the
   * first row of the nearest year found by the arg-sort; None for an empty
   * table. It is always the first row nearest the year.
   */
  function YearRow<T>(rows: seq<T>, yearOf: T -> int, year: int): (k: Option<nat>)
    ensures k.None? <==> |rows| == 0
    ensures k.Some? ==> k.value < |rows|
    ensures k.Some? ==> forall j :: 0 <= j < |rows| ==> Distance(yearOf(rows[k.value]), year) <= Distance(yearOf(rows[j]), year)
    ensures k.Some? ==> forall j :: 0 <= j < k.value ==> Distance(yearOf(rows[k.value]), year) < Distance(yearOf(rows[j]), year)
  {
    match FacilityV3.FirstIndexOfYear(rows, yearOf, year, 0)
    case Some(k) => Some(k)
    case None =>
      if |rows| == 0 then None
      else
        var c := NearestIndex(rows, yearOf, year);
        FacilityV3.FirstIndexOfYear(rows, yearOf, yearOf(rows[c]), 0)
  }

  /** A year that has a row is read from its own first row. */
  lemma {:induction false} YearRowExact<T>(rows: seq<T>, yearOf: T -> int, year: int, j: nat)
    requires j < |rows| && yearOf(rows[j]) == year
    ensures YearRow(rows, yearOf, year).Some?
    ensures yearOf(rows[YearRow(rows, yearOf, year).value]) == year
    ensures YearRow(rows, yearOf, year).value <= j
  {
    var k := YearRow(rows, yearOf, year).value;
    assert Distance(yearOf(rows[k]), year) <= Distance(yearOf(rows[j]), year);
  }

  /** Fuel prices of one year (USD per GJ of fuel, per t of feedstock). */
  datatype FuelPrices = FuelPrices(
    year: int,
    naturalGasUsdPerGj: real,
    fuelOilUsdPerGj: real,
    electricityUsdPerGj: real,
    greenHydrogenUsdPerGj: real,
    naphthaUsdPerT: real,
    lpgUsdPerT: real,
    reformateUsdPerT: real)

  /** `get_emission_factors_for_year`: an empty series has no row to read (IndexError). */
  function EmissionFactorsFor(efs: seq<FacilityV3.EmissionFactors>, year: int): (r: Result<FacilityV3.EmissionFactors>)
    ensures r.Err? <==> |efs| == 0
    ensures r.Err? ==> r.error == IndexError
    ensures r.Ok? ==> r.value in efs && forall e :: e in efs ==> Distance(r.value.year, year) <= Distance(e.year, year)
    ensures r.Ok? && (exists e :: e in efs && e.year == year) ==> r.value.year == year
  {
    match YearRow(efs, (e: FacilityV3.EmissionFactors) => e.year, year)
    case None => Err(IndexError)
    case Some(k) => Ok(efs[k])
  }

  /** `get_fuel_costs_for_year`: the same lookup in the fuel-price series. */
  function FuelPricesFor(fps: seq<FuelPrices>, year: int): (r: Result<FuelPrices>)
    ensures r.Err? <==> |fps| == 0
    ensures r.Err? ==> r.error == IndexError
    ensures r.Ok? ==> r.value in fps && forall p :: p in fps ==> Distance(r.value.year, year) <= Distance(p.year, year)
    ensures r.Ok? && (exists p :: p in fps && p.year == year) ==> r.value.year == year
  {
    match YearRow(fps, (p: FuelPrices) => p.year, year)
    case None => Err(IndexError)
    case Some(k) => Ok(fps[k])
  }

  // ---------------------------------------------------------------------
  // The facility-technology matrix
  // ---------------------------------------------------------------------

  /** A facility: its regional indices and the capacity column it has for each technology group. */
  datatype Facility = Facility(
    facilityId: string,
    region: string,
    company: string,
    laborCostIndex: real,
    electricityPriceUsdPerMwh: real,
    capacityKt: map<string, real>)

  /** A technology joined with its cost row: energy and feedstock use per t of product, capex, opex delta and lifetime. */
  datatype Technology = Technology(
    techId: string,
    techGroup: string,
    band: string,
    technologyCategory: string,
    naturalGasGjPerT: real,
    fuelOilGjPerT: real,
    electricityGjPerT: real,
    hydrogenGjPerT: real,
    naphthaTPerT: real,
    lpgTPerT: real,
    reformateTPerT: real,
    capexMillionUsdPerKt: real,
    opexDeltaUsdPerT: real,
    lifetimeYears: int,
    commercialYear: int,
    technicalReadiness: int)

  /** One band of the 2023 baseline: its activity and its energy and feedstock use per t of product. */
  datatype BandConsumption = BandConsumption(
    techGroup: string,
    band: string,
    activityKt: real,
    naturalGasGjPerT: real,
    fuelOilGjPerT: real,
    electricityGjPerT: real,
    naphthaTPerT: real,
    lpgTPerT: real,
    reformateTPerT: real)

  /** t CO2 per t of product of the band as operated in the baseline. */
  function BaselineIntensity(b: BandConsumption, ef: FacilityV3.EmissionFactors): real
  {
    b.naturalGasGjPerT * ef.naturalGasTPerGj + b.fuelOilGjPerT * ef.fuelOilTPerGj + b.electricityGjPerT * ef.electricityTPerGj
    + b.naphthaTPerT * ef.naphthaTPerT + b.lpgTPerT * ef.lpgTPerT + b.reformateTPerT * ef.reformateTPerT
  }

  /** t CO2 per t of product with the technology, its hydrogen priced at the green-hydrogen factor. */
  function AlternativeIntensity(t: Technology, ef: FacilityV3.EmissionFactors): real
  {
    t.naturalGasGjPerT * ef.naturalGasTPerGj + t.fuelOilGjPerT * ef.fuelOilTPerGj + t.electricityGjPerT * ef.electricityTPerGj
    + t.hydrogenGjPerT * ef.greenHydrogenTPerGj
    + t.naphthaTPerT * ef.naphthaTPerT + t.lpgTPerT * ef.lpgTPerT + t.reformateTPerT * ef.reformateTPerT
  }

  /** USD of fuel and feedstock per t of product in the baseline. */
  function BaselineFuelCost(b: BandConsumption, fp: FuelPrices): real
  {
    b.naturalGasGjPerT * fp.naturalGasUsdPerGj + b.fuelOilGjPerT * fp.fuelOilUsdPerGj + b.electricityGjPerT * fp.electricityUsdPerGj
    + b.naphthaTPerT * fp.naphthaUsdPerT + b.lpgTPerT * fp.lpgUsdPerT + b.reformateTPerT * fp.reformateUsdPerT
  }

  /** USD of fuel and feedstock per t of product with the technology. */
  function AlternativeFuelCost(t: Technology, fp: FuelPrices): real
  {
    t.naturalGasGjPerT * fp.naturalGasUsdPerGj + t.fuelOilGjPerT * fp.fuelOilUsdPerGj + t.electricityGjPerT * fp.electricityUsdPerGj
    + t.hydrogenGjPerT * fp.greenHydrogenUsdPerGj
    + t.naphthaTPerT * fp.naphthaUsdPerT + t.lpgTPerT * fp.lpgUsdPerT + t.reformateTPerT * fp.reformateUsdPerT
  }

  /** The first baseline band of a technology group and band, as `.iloc[0]` of the filter reads it. */
  function BandRow(bands: seq<BandConsumption>, techGroup: string, band: string): (r: Option<BandConsumption>)
    ensures r.None? <==> forall b :: b in bands ==> !(b.techGroup == techGroup && b.band == band)
    ensures r.Some? ==> r.value in bands && r.value.techGroup == techGroup && r.value.band == band
    decreases |bands|
  {
    if |bands| == 0 then None
    else if bands[0].techGroup == techGroup && bands[0].band == band then Some(bands[0])
    else
      assert forall b :: b in bands ==> b == bands[0] || b in bands[1..];
      BandRow(bands[1..], techGroup, band)
  }

  /** The script's discount rate for annualising capex. */
  const DiscountRate := 0.05

  /** The electricity price (USD per MWh) at which the opex delta holds unadjusted. */
  const ReferenceElectricityPriceUsdPerMwh := 118.0

  /** Capex per kt of capacity scaled by the regional labour index over 100. */
  function AdjustedCapex(t: Technology, f: Facility): real
  {
    t.capexMillionUsdPerKt * (f.laborCostIndex / 100.0)
  }

  /** The opex delta scaled by the regional electricity price, plus the change in fuel and feedstock cost. */
  function OpexDelta(t: Technology, f: Facility, b: BandConsumption, fp: FuelPrices): real
  {
    t.opexDeltaUsdPerT * (f.electricityPriceUsdPerMwh / ReferenceElectricityPriceUsdPerMwh)
    + (AlternativeFuelCost(t, fp) - BaselineFuelCost(b, fp))
  }

  /** The annualised capex (USD) per t of yearly capacity. */
  function AnnualCapexPerT(adjustedCapex: real, crf: real, capacityKt: real): real
    requires capacityKt != 0.0
  {
    adjustedCapex * 1000000.0 * crf / (capacityKt * 1000.0)
  }

  /**
   * Levelised cost of abatement (USD per t CO2): `inf` unless the
   * technology reduces emissions, else the annual cost per t over the
   * reduction per t. Python raises on the zero divisors: a zero lifetime
   * (the capital recovery factor) or a zero capacity.
   */
  function OptionLcoa(adjustedCapex: real, opexDelta: real, capacityKt: real, reduction: real, lifetime: int): (r: Result<ExtReal>)
    ensures reduction <= 0.0 ==> r == Ok(Infinite)
    ensures r.Err? ==> r.error == ZeroDivisionError && reduction > 0.0
    ensures r.Ok? ==> (r.value.Infinite? <==> reduction <= 0.0)
    ensures r.Ok? && r.value.Finite? ==>
      capacityKt != 0.0 && Finance.Crf(DiscountRate, lifetime).Ok? &&
      r.value.v * reduction == AnnualCapexPerT(adjustedCapex, Finance.Crf(DiscountRate, lifetime).value, capacityKt) + opexDelta
  {
    if reduction <= 0.0 then Ok(Infinite)
    else
      match Finance.Crf(DiscountRate, lifetime)
      case Err(e) => Err(e)
      case Ok(crf) =>
        if capacityKt * 1000.0 == 0.0 then Err(ZeroDivisionError)
        else Ok(Finite((AnnualCapexPerT(adjustedCapex, crf, capacityKt) + opexDelta) / reduction))
  }

  /** At 5 % the capital recovery factor fails for a zero lifetime only. */
  lemma {:induction false} CrfFailsAtZeroLifetime(lifetime: int)
    ensures Finance.Crf(DiscountRate, lifetime).Err? <==> lifetime == 0
  {
    if lifetime >= 1 {
      var d := Finance.CrfPositiveRate(DiscountRate, lifetime);
    } else if lifetime <= -1 {
      PowGreaterThanOne(1.0 + DiscountRate, -lifetime);
      assert IntPow(1.0 + DiscountRate, -lifetime) == Some(Pow(1.0 + DiscountRate, -lifetime));
    } else {
      assert IntPow(1.0 + DiscountRate, 0) == Some(1.0);
    }
  }

  /** The cost of an abating technology fails exactly when its lifetime or its capacity is zero. */
  lemma {:induction false} OptionLcoaFails(adjustedCapex: real, opexDelta: real, capacityKt: real, reduction: real, lifetime: int)
    requires reduction > 0.0
    ensures OptionLcoa(adjustedCapex, opexDelta, capacityKt, reduction, lifetime).Err? <==> lifetime == 0 || capacityKt == 0.0
  {
    CrfFailsAtZeroLifetime(lifetime);
  }

  /** One facility-technology pair: capacity, abatement per t and in total, cost of abatement, capex. */
  datatype DeploymentOption = DeploymentOption(
    deploymentId: string,
    techId: string,
    facilityId: string,
    region: string,
    company: string,
    techGroup: string,
    technology: string,
    baselineCapacityKt: real,
    maxDeploymentKt: real,
    abatementPerT: real,
    totalAbatementKt: real,
    lcoa: ExtReal,
    capexMillionUsd: real,
    commercialYear: int,
    technicalReadiness: int,
    baselinePerT: real,
    alternativePerT: real)

  /**
   * What every option of the matrix satisfies: the whole capacity may
   * convert, the reduction is the gap between the intensities, the total
   * abatement is the capacity times that reduction, the cost is infinite
   * exactly when nothing is abated and finite only for a non-zero capacity.
   */
  predicate WellFormed(o: DeploymentOption)
  {
    o.deploymentId == o.techId + "_" + o.facilityId &&
    o.maxDeploymentKt == o.baselineCapacityKt &&
    o.abatementPerT == o.baselinePerT - o.alternativePerT &&
    o.totalAbatementKt == OptimizationV2.Scale(o.maxDeploymentKt, o.abatementPerT) &&
    (o.lcoa.Infinite? <==> o.abatementPerT <= 0.0) &&
    (o.lcoa.Finite? ==> o.maxDeploymentKt != 0.0)
  }

  /**
   * The option of one facility and technology: none when the facility has
   * no capacity column for the group or the baseline has no such band.
   */
  function OptionFor(f: Facility, t: Technology, bands: seq<BandConsumption>, ef: FacilityV3.EmissionFactors, fp: FuelPrices): (r: Result<Option<DeploymentOption>>)
    ensures r == Ok(None) <==> t.techGroup !in f.capacityKt || BandRow(bands, t.techGroup, t.band).None?
    ensures r.Err? ==> r.error == ZeroDivisionError
    ensures r.Ok? && r.value.Some? ==>
      WellFormed(r.value.value) && r.value.value.techId == t.techId && r.value.value.facilityId == f.facilityId &&
      r.value.value.commercialYear == t.commercialYear && r.value.value.technology == t.technologyCategory &&
      r.value.value.maxDeploymentKt == f.capacityKt[t.techGroup]
  {
    if t.techGroup !in f.capacityKt then Ok(None)
    else
      match BandRow(bands, t.techGroup, t.band)
      case None => Ok(None)
      case Some(b) =>
        match OptionLcoa(AdjustedCapex(t, f), OpexDelta(t, f, b, fp), f.capacityKt[t.techGroup],
                         BaselineIntensity(b, ef) - AlternativeIntensity(t, ef), t.lifetimeYears)
        case Err(e) => Err(e)
        case Ok(lcoa) =>
          Ok(Some(DeploymentOption(
            t.techId + "_" + f.facilityId, t.techId, f.facilityId, f.region, f.company, t.techGroup, t.technologyCategory,
            f.capacityKt[t.techGroup], f.capacityKt[t.techGroup],
            BaselineIntensity(b, ef) - AlternativeIntensity(t, ef),
            OptimizationV2.Scale(f.capacityKt[t.techGroup], BaselineIntensity(b, ef) - AlternativeIntensity(t, ef)),
            lcoa, OptimizationV2.Scale(f.capacityKt[t.techGroup], AdjustedCapex(t, f)),
            t.commercialYear, t.technicalReadiness, BaselineIntensity(b, ef), AlternativeIntensity(t, ef))))
  }

  function Listed(o: Option<DeploymentOption>): seq<DeploymentOption>
  {
    if o.Some? then [o.value] else []
  }

  /** One facility's options, technology by technology; the first exception ends the loop. */
  function FacilityOptions(f: Facility, techs: seq<Technology>, bands: seq<BandConsumption>, ef: FacilityV3.EmissionFactors, fp: FuelPrices): (r: Result<seq<DeploymentOption>>)
    ensures r.Ok? <==> forall t :: t in techs ==> OptionFor(f, t, bands, ef, fp).Ok?
    ensures r.Err? ==> r.error == ZeroDivisionError
    ensures r.Ok? ==> |r.value| <= |techs| && forall o :: o in r.value ==> WellFormed(o) && o.facilityId == f.facilityId
    decreases |techs|
  {
    if |techs| == 0 then Ok([])
    else
      var n := |techs| - 1;
      assert forall t :: t in techs ==> t in techs[..n] || t == techs[n];
      match FacilityOptions(f, techs[..n], bands, ef, fp)
      case Err(e) => Err(e)
      case Ok(prev) =>
        match OptionFor(f, techs[n], bands, ef, fp)
        case Err(e) => Err(e)
        case Ok(o) => Ok(prev + Listed(o))
  }

  /** Every facility's options in facility order; the first exception ends the loop. */
  function MatrixOver(facilities: seq<Facility>, techs: seq<Technology>, bands: seq<BandConsumption>, ef: FacilityV3.EmissionFactors, fp: FuelPrices): (r: Result<seq<DeploymentOption>>)
    ensures r.Ok? <==> forall f, t :: f in facilities && t in techs ==> OptionFor(f, t, bands, ef, fp).Ok?
    ensures r.Err? ==> r.error == ZeroDivisionError
    ensures r.Ok? ==> forall o :: o in r.value ==> WellFormed(o)
    decreases |facilities|
  {
    if |facilities| == 0 then Ok([])
    else
      var n := |facilities| - 1;
      assert forall f :: f in facilities ==> f in facilities[..n] || f == facilities[n];
      match MatrixOver(facilities[..n], techs, bands, ef, fp)
      case Err(e) => Err(e)
      case Ok(prev) =>
        match FacilityOptions(facilities[n], techs, bands, ef, fp)
        case Err(e) => Err(e)
        case Ok(os) =>
          assert forall o :: o in prev + os ==> o in prev || o in os;
          Ok(prev + os)
  }

  /**
   * `create_facility_technology_matrix` for a year: the year's emission
   * factors and fuel prices (nearest year when missing), then every
   * facility-technology pair.
   */
  function Matrix(facilities: seq<Facility>, techs: seq<Technology>, bands: seq<BandConsumption>,
                  efs: seq<FacilityV3.EmissionFactors>, fps: seq<FuelPrices>, year: int): (r: Result<seq<DeploymentOption>>)
    ensures |efs| == 0 ==> r == Err(IndexError)
    ensures |efs| > 0 && |fps| == 0 ==> r == Err(IndexError)
    ensures r.Ok? ==> forall o :: o in r.value ==> WellFormed(o)
  {
    match EmissionFactorsFor(efs, year)
    case Err(e) => Err(e)
    case Ok(ef) =>
      match FuelPricesFor(fps, year)
      case Err(e) => Err(e)
      case Ok(fp) => MatrixOver(facilities, techs, bands, ef, fp)
  }

  lemma {:induction false} FacilityOptionsFailed(f: Facility, techs: seq<Technology>, bands: seq<BandConsumption>, ef: FacilityV3.EmissionFactors, fp: FuelPrices, k: nat)
    requires k <= |techs| && FacilityOptions(f, techs[..k], bands, ef, fp).Err?
    ensures FacilityOptions(f, techs, bands, ef, fp) == FacilityOptions(f, techs[..k], bands, ef, fp)
    decreases |techs|
  {
    if k < |techs| {
      var n := |techs| - 1;
      assert techs[..n][..k] == techs[..k];
      FacilityOptionsFailed(f, techs[..n], bands, ef, fp, k);
    } else {
      assert techs[..k] == techs;
    }
  }

  lemma {:induction false} MatrixOverFailed(facilities: seq<Facility>, techs: seq<Technology>, bands: seq<BandConsumption>, ef: FacilityV3.EmissionFactors, fp: FuelPrices, k: nat)
    requires k <= |facilities| && MatrixOver(facilities[..k], techs, bands, ef, fp).Err?
    ensures MatrixOver(facilities, techs, bands, ef, fp) == MatrixOver(facilities[..k], techs, bands, ef, fp)
    decreases |facilities|
  {
    if k < |facilities| {
      var n := |facilities| - 1;
      assert facilities[..n][..k] == facilities[..k];
      MatrixOverFailed(facilities[..n], techs, bands, ef, fp, k);
    } else {
      assert facilities[..k] == facilities;
    }
  }

  /** The inner loop: one facility's options appended technology by technology. */
  method CollectFacilityOptions(f: Facility, techs: seq<Technology>, bands: seq<BandConsumption>, ef: FacilityV3.EmissionFactors, fp: FuelPrices)
    returns (r: Result<seq<DeploymentOption>>)
    ensures r == FacilityOptions(f, techs, bands, ef, fp)
  {
    var options: seq<DeploymentOption> := [];
    var j := 0;
    while j < |techs|
      invariant j <= |techs|
      invariant FacilityOptions(f, techs[..j], bands, ef, fp) == Ok(options)
    {
      assert techs[..j + 1][..j] == techs[..j];
      var o := OptionFor(f, techs[j], bands, ef, fp);
      if o.Err? {
        FacilityOptionsFailed(f, techs, bands, ef, fp, j + 1);
        return Err(o.error);
      }
      options := options + Listed(o.value);
      j := j + 1;
    }
    assert techs[..j] == techs;
    return Ok(options);
  }

  /** `create_facility_technology_matrix`: the outer loop over facilities. */
  method CreateFacilityTechnologyMatrix(facilities: seq<Facility>, techs: seq<Technology>, bands: seq<BandConsumption>,
                                        efs: seq<FacilityV3.EmissionFactors>, fps: seq<FuelPrices>, year: int)
    returns (r: Result<seq<DeploymentOption>>)
    ensures r == Matrix(facilities, techs, bands, efs, fps, year)
  {
    var ef := EmissionFactorsFor(efs, year);
    if ef.Err? {
      return Err(ef.error);
    }
    var fp := FuelPricesFor(fps, year);
    if fp.Err? {
      return Err(fp.error);
    }
    var all: seq<DeploymentOption> := [];
    var i := 0;
    while i < |facilities|
      invariant i <= |facilities|
      invariant MatrixOver(facilities[..i], techs, bands, ef.value, fp.value) == Ok(all)
    {
      assert facilities[..i + 1][..i] == facilities[..i];
      var os := CollectFacilityOptions(facilities[i], techs, bands, ef.value, fp.value);
      if os.Err? {
        MatrixOverFailed(facilities, techs, bands, ef.value, fp.value, i + 1);
        return Err(os.error);
      }
      all := all + os.value;
      i := i + 1;
    }
    assert facilities[..i] == facilities;
    return Ok(all);
  }

  /**
   * A facility's options are exactly the pairs that produce one: each
   * technology with a capacity column and a baseline band contributes its
   * option and nothing else appears.
   */
  lemma {:induction false} FacilityOptionsCover(f: Facility, techs: seq<Technology>, bands: seq<BandConsumption>, ef: FacilityV3.EmissionFactors, fp: FuelPrices)
    requires FacilityOptions(f, techs, bands, ef, fp).Ok?
    ensures forall t :: t in techs && OptionFor(f, t, bands, ef, fp).value.Some? ==>
      OptionFor(f, t, bands, ef, fp).value.value in FacilityOptions(f, techs, bands, ef, fp).value
    ensures forall o :: o in FacilityOptions(f, techs, bands, ef, fp).value ==>
      exists t :: t in techs && OptionFor(f, t, bands, ef, fp) == Ok(Some(o))
    decreases |techs|
  {
    if |techs| > 0 {
      var n := |techs| - 1;
      assert forall t :: t in techs <==> t in techs[..n] || t == techs[n];
      FacilityOptionsCover(f, techs[..n], bands, ef, fp);
    }
  }

  // ---------------------------------------------------------------------
  // The marginal abatement cost curve
  // ---------------------------------------------------------------------

  /** The options, in order, that `keep` accepts (a boolean row filter). */
  function Where(options: seq<DeploymentOption>, keep: DeploymentOption -> bool): (r: seq<DeploymentOption>)
    ensures forall o :: o in r <==> o in options && keep(o)
    ensures |r| <= |options|
    decreases |options|
  {
    if |options| == 0 then []
    else
      var n := |options| - 1;
      assert forall o :: o in options <==> o in options[..n] || o == options[n];
      Where(options[..n], keep) + (if keep(options[n]) then [options[n]] else [])
  }

  /** The options commercially available by `year`. */
  function Available(options: seq<DeploymentOption>, year: int): (r: seq<DeploymentOption>)
    ensures forall o :: o in r <==> o in options && o.commercialYear <= year
  {
    Where(options, (o: DeploymentOption) => o.commercialYear <= year)
  }

  /** Ascending LCOA, `inf` last. */
  predicate LcoaLe(a: DeploymentOption, b: DeploymentOption)
  {
    a.lcoa.Le(b.lcoa)
  }

  lemma {:induction false} LcoaLeTotalPreorder()
    ensures Sorting.TotalPreorder(LcoaLe)
  {
  }

  /** One point of the curve: an option and the abatement (Mt CO2) up to and including it. */
  datatype MaccStep = MaccStep(option: DeploymentOption, cumulativeMt: real)

  function Abatements(options: seq<DeploymentOption>): (s: seq<real>)
    ensures |s| == |options|
    ensures forall i :: 0 <= i < |options| ==> s[i] == options[i].totalAbatementKt
  {
    seq(|options|, i requires 0 <= i < |options| => options[i].totalAbatementKt)
  }

  /** Sorted by LCOA, with the running total of the abatement (kt) over 1000. */
  function Curve(options: seq<DeploymentOption>): (ps: seq<MaccStep>)
    ensures |ps| == |options|
  {
    var sorted := Sorting.SortBy(options, LcoaLe);
    var cumulative := PrefixSums(Abatements(sorted));
    seq(|sorted|, i requires 0 <= i < |sorted| => MaccStep(sorted[i], cumulative[i] / 1000.0))
  }

  /**
   * `generate_macc_curve`: the options available by the year, by LCOA, with
   * cumulative abatement. An empty matrix has no columns to filter on
   * (KeyError).
   */
  function MaccCurve(options: seq<DeploymentOption>, year: int): (r: Result<seq<MaccStep>>)
    ensures r.Err? <==> |options| == 0
    ensures r.Err? ==> r.error == KeyError
  {
    if |options| == 0 then Err(KeyError) else Ok(Curve(Available(options, year)))
  }

  function StepOptions(ps: seq<MaccStep>): (os: seq<DeploymentOption>)
    ensures |os| == |ps| && forall i :: 0 <= i < |ps| ==> os[i] == ps[i].option
  {
    seq(|ps|, i requires 0 <= i < |ps| => ps[i].option)
  }

  /**
   * The curve holds exactly the available options, in ascending LCOA with
   * the infinite ones last, and each cumulative value is the abatement of
   * its option and of every cheaper one, in Mt.
   */
  lemma {:induction false} MaccCurveShape(options: seq<DeploymentOption>, year: int)
    requires MaccCurve(options, year).Ok?
    ensures var ps := MaccCurve(options, year).value;
      multiset(StepOptions(ps)) == multiset(Available(options, year)) &&
      Sorting.SortedBy(StepOptions(ps), LcoaLe) &&
      (forall i, j :: 0 <= i < j < |ps| && ps[j].option.lcoa.Finite? ==> ps[i].option.lcoa.Finite?) &&
      (forall i :: 0 <= i < |ps| ==> ps[i].cumulativeMt == Sum(Abatements(StepOptions(ps))[..i + 1]) / 1000.0)
  {
    var available := Available(options, year);
    var sorted := Sorting.SortBy(available, LcoaLe);
    var ps := Curve(available);
    assert StepOptions(ps) == sorted;
    LcoaLeTotalPreorder();
    Sorting.SortBySorted(available, LcoaLe);
  }

  /**
   * Over the options with a finite cost, which come first, the cumulative
   * abatement rises strictly when every capacity is positive: each of them
   * abates something.
   */
  lemma {:induction false} MaccRisesWhileFinite(options: seq<DeploymentOption>, year: int, i: nat, j: nat)
    requires MaccCurve(options, year).Ok?
    requires forall o :: o in options ==> WellFormed(o) && o.maxDeploymentKt > 0.0
    requires i < j < |MaccCurve(options, year).value| && MaccCurve(options, year).value[j].option.lcoa.Finite?
    ensures MaccCurve(options, year).value[i].cumulativeMt < MaccCurve(options, year).value[j].cumulativeMt
  {
    CurveRises(Available(options, year), i, j);
  }

  lemma {:induction false} CurveRises(available: seq<DeploymentOption>, i: nat, j: nat)
    requires forall o :: o in available ==> WellFormed(o) && o.maxDeploymentKt > 0.0
    requires i < j < |available| && Curve(available)[j].option.lcoa.Finite?
    ensures Curve(available)[i].cumulativeMt < Curve(available)[j].cumulativeMt
  {
    var sorted := Sorting.SortBy(available, LcoaLe);
    LcoaLeTotalPreorder();
    Sorting.SortBySorted(available, LcoaLe);
    assert Curve(available)[j].option == sorted[j];
    forall o | o in sorted
      ensures WellFormed(o) && o.maxDeploymentKt > 0.0
    {
      assert o in multiset(available);
    }
    AbatingUpToFinite(sorted, j);
    RunningTotalRises(sorted, i, j);
  }

  /** In LCOA order, every option up to one with a finite cost abates something. */
  lemma {:induction false} AbatingUpToFinite(sorted: seq<DeploymentOption>, j: nat)
    requires forall o :: o in sorted ==> WellFormed(o) && o.maxDeploymentKt > 0.0
    requires Sorting.SortedBy(sorted, LcoaLe) && j < |sorted| && sorted[j].lcoa.Finite?
    ensures forall k :: 0 <= k <= j ==> sorted[k].totalAbatementKt > 0.0
  {
    forall k | 0 <= k <= j
      ensures sorted[k].totalAbatementKt > 0.0
    {
      if k < j {
        BelowFiniteIsFinite(sorted[k].lcoa, sorted[j].lcoa);
      }
      PositiveAbatement(sorted[k]);
    }
  }

  lemma {:induction false} BelowFiniteIsFinite(a: ExtReal, b: ExtReal)
    requires a.Le(b) && b.Finite?
    ensures a.Finite?
  {
  }

  /** An option with a finite cost and a positive capacity abates something. */
  lemma {:induction false} PositiveAbatement(o: DeploymentOption)
    requires WellFormed(o) && o.maxDeploymentKt > 0.0 && o.lcoa.Finite?
    ensures o.totalAbatementKt > 0.0
  {
    OptimizationV2.MulPositive(o.maxDeploymentKt, o.abatementPerT);
  }

  lemma {:induction false} RunningTotalRises(options: seq<DeploymentOption>, i: nat, j: nat)
    requires i < j < |options|
    requires forall k :: 0 <= k <= j ==> options[k].totalAbatementKt > 0.0
    ensures Sum(Abatements(options)[..i + 1]) < Sum(Abatements(options)[..j + 1])
  {
    var s := Abatements(options)[..j + 1];
    SumLonger(s, i + 1, j + 1);
    assert s[..i + 1] == Abatements(options)[..i + 1];
    assert s[..j + 1] == s;
  }

  // ---------------------------------------------------------------------
  // Baseline emissions
  // ---------------------------------------------------------------------

  /** The year whose emission factors price the baseline. */
  const BaselineYear := 2023

  /** A band's emissions (t CO2): its activity times each fuel's and feedstock's use and factor. */
  function BandEmissions(b: BandConsumption, ef: FacilityV3.EmissionFactors): real
  {
    b.activityKt * b.naturalGasGjPerT * ef.naturalGasTPerGj
    + b.activityKt * b.fuelOilGjPerT * ef.fuelOilTPerGj
    + b.activityKt * b.electricityGjPerT * ef.electricityTPerGj
    + b.activityKt * b.naphthaTPerT * ef.naphthaTPerT
    + b.activityKt * b.lpgTPerT * ef.lpgTPerT
    + b.activityKt * b.reformateTPerT * ef.reformateTPerT
  }

  function BaselineTotal(bands: seq<BandConsumption>, ef: FacilityV3.EmissionFactors): real
    decreases |bands|
  {
    if |bands| == 0 then 0.0 else BaselineTotal(bands[..|bands| - 1], ef) + BandEmissions(bands[|bands| - 1], ef)
  }

  /** `calculate_baseline_emissions`: the bands' emissions at the 2023 factors, over 1000 (Mt). */
  function BaselineEmissions(bands: seq<BandConsumption>, efs: seq<FacilityV3.EmissionFactors>): (r: Result<real>)
    ensures r.Err? <==> |efs| == 0
  {
    match EmissionFactorsFor(efs, BaselineYear)
    case Err(e) => Err(e)
    case Ok(ef) => Ok(BaselineTotal(bands, ef) / 1000.0)
  }

  function EmissionsColumn(bands: seq<BandConsumption>, ef: FacilityV3.EmissionFactors): (c: seq<real>)
    ensures |c| == |bands| && forall i :: 0 <= i < |bands| ==> c[i] == BandEmissions(bands[i], ef)
  {
    seq(|bands|, i requires 0 <= i < |bands| => BandEmissions(bands[i], ef))
  }

  /** The loop over the bands: each band's emissions recorded and added to the total. */
  method CalculateBaselineEmissions(bands: seq<BandConsumption>, efs: seq<FacilityV3.EmissionFactors>)
    returns (r: Result<real>, emissions: seq<real>)
    ensures r == BaselineEmissions(bands, efs)
    ensures r.Ok? ==> emissions == EmissionsColumn(bands, EmissionFactorsFor(efs, BaselineYear).value)
  {
    var ef := EmissionFactorsFor(efs, BaselineYear);
    if ef.Err? {
      return Err(ef.error), [];
    }
    var total := 0.0;
    emissions := [];
    var i := 0;
    while i < |bands|
      invariant i <= |bands|
      invariant total == BaselineTotal(bands[..i], ef.value)
      invariant emissions == EmissionsColumn(bands[..i], ef.value)
    {
      assert bands[..i + 1][..i] == bands[..i];
      total := total + BandEmissions(bands[i], ef.value);
      emissions := emissions + [BandEmissions(bands[i], ef.value)];
      i := i + 1;
    }
    assert bands[..i] == bands;
    return Ok(total / 1000.0), emissions;
  }

  lemma {:induction false} ProductsDistribute(a: real, x1: real, y1: real, x2: real, y2: real, x3: real, y3: real,
                                              x4: real, y4: real, x5: real, y5: real, x6: real, y6: real)
    ensures a * x1 * y1 + a * x2 * y2 + a * x3 * y3 + a * x4 * y4 + a * x5 * y5 + a * x6 * y6
         == a * (x1 * y1 + x2 * y2 + x3 * y3 + x4 * y4 + x5 * y5 + x6 * y6)
  {
    assert a * x1 * y1 == a * (x1 * y1);
    assert a * x2 * y2 == a * (x2 * y2);
    assert a * x3 * y3 == a * (x3 * y3);
    assert a * x4 * y4 == a * (x4 * y4);
    assert a * x5 * y5 == a * (x5 * y5);
    assert a * x6 * y6 == a * (x6 * y6);
  }

  /**
   * A band emits its activity times the baseline intensity per t that the
   * options compare against.
   */
  lemma {:induction false} BandEmissionsAreActivityTimesIntensity(b: BandConsumption, ef: FacilityV3.EmissionFactors)
    ensures BandEmissions(b, ef) == OptimizationV2.Scale(b.activityKt, BaselineIntensity(b, ef))
  {
    ProductsDistribute(b.activityKt, b.naturalGasGjPerT, ef.naturalGasTPerGj, b.fuelOilGjPerT, ef.fuelOilTPerGj,
      b.electricityGjPerT, ef.electricityTPerGj, b.naphthaTPerT, ef.naphthaTPerT, b.lpgTPerT, ef.lpgTPerT,
      b.reformateTPerT, ef.reformateTPerT);
  }

  // ---------------------------------------------------------------------
  // The deployment heuristic
  // ---------------------------------------------------------------------

  /** The share of every cost-effective option deployed in a year: 10 % a year from 2023, at most 80 %. */
  function DeploymentFraction(year: int): real
  {
    Min(0.8, (year - BaselineYear) as real * 0.1)
  }

  /**
   * The fraction never falls from one year to the next, is zero in 2023,
   * stays at most 80 %, reaches only 70 % in 2030 and is 80 % from 2031 on.
   */
  lemma {:induction false} DeploymentRamp(y1: int, y2: int)
    requires y1 <= y2
    ensures DeploymentFraction(y1) <= DeploymentFraction(y2) <= 0.8
    ensures y1 >= BaselineYear ==> DeploymentFraction(y1) >= 0.0
    ensures DeploymentFraction(BaselineYear) == 0.0 && DeploymentFraction(2030) == 0.7
    ensures y1 >= 2031 ==> DeploymentFraction(y1) == 0.8
  {
  }

  /** Options cheaper than this (USD per t CO2) are deployed; `inf` never is. */
  const CostEffectiveLcoa := 100.0

  /** The available options costing at most 100 USD per t, by ascending LCOA. */
  function CostEffective(available: seq<DeploymentOption>): (r: seq<DeploymentOption>)
    ensures multiset(r) == multiset(Where(available, (o: DeploymentOption) => AtMost(o.lcoa, CostEffectiveLcoa)))
    ensures forall o :: o in r <==> o in available && AtMost(o.lcoa, CostEffectiveLcoa)
    ensures Sorting.SortedBy(r, LcoaLe)
  {
    var kept := Where(available, (o: DeploymentOption) => AtMost(o.lcoa, CostEffectiveLcoa));
    LcoaLeTotalPreorder();
    Sorting.SortBySorted(kept, LcoaLe);
    Sorting.SortByMembers(kept, LcoaLe);
    Sorting.SortBy(kept, LcoaLe)
  }

  /** The running totals of the deployment loop. */
  datatype Totals = Totals(deploymentKt: real, abatementKt: real, investmentMillionUsd: real, premiumMillionUsd: real)

  /** The option's capacity times the year's fraction (kt). */
  function DeployedKt(o: DeploymentOption, fraction: real): real
  {
    o.maxDeploymentKt * fraction
  }

  /**
   * One pass of the loop: the deployed capacity, its abatement, its share of
   * the option's capex and its cost premium (the LCOA times the abatement)
   * are added. Dividing the capex by a zero capacity raises.
   */
  function Step(t: Totals, o: DeploymentOption, fraction: real): Result<Totals>
    requires o.lcoa.Finite?
  {
    if o.maxDeploymentKt == 0.0 then Err(ZeroDivisionError)
    else
      Ok(Totals(
        t.deploymentKt + DeployedKt(o, fraction),
        t.abatementKt + OptimizationV2.Scale(DeployedKt(o, fraction), o.abatementPerT),
        t.investmentMillionUsd + OptimizationV2.Scale(DeployedKt(o, fraction), o.capexMillionUsd) / o.maxDeploymentKt,
        t.premiumMillionUsd + OptimizationV2.Scale(OptimizationV2.Scale(DeployedKt(o, fraction), o.lcoa.v), o.abatementPerT) / 1000.0))
  }

  /** The loop's totals over the cost-effective options in order; the first exception ends it. */
  function Accumulated(options: seq<DeploymentOption>, fraction: real): (r: Result<Totals>)
    requires forall o :: o in options ==> o.lcoa.Finite?
    ensures r.Err? ==> r.error == ZeroDivisionError
    ensures r.Err? <==> exists o :: o in options && o.maxDeploymentKt == 0.0
    decreases |options|
  {
    if |options| == 0 then Ok(Totals(0.0, 0.0, 0.0, 0.0))
    else
      var n := |options| - 1;
      assert options[n] in options;
      assert forall o :: o in options <==> o in options[..n] || o == options[n];
      match Accumulated(options[..n], fraction)
      case Err(e) => Err(e)
      case Ok(t) => Step(t, options[n], fraction)
  }

  lemma {:induction false} AccumulatedFailed(options: seq<DeploymentOption>, fraction: real, k: nat)
    requires forall o :: o in options ==> o.lcoa.Finite?
    requires k <= |options|
    requires forall o :: o in options[..k] ==> o in options
    requires Accumulated(options[..k], fraction).Err?
    ensures Accumulated(options, fraction) == Accumulated(options[..k], fraction)
    decreases |options|
  {
    if k < |options| {
      var n := |options| - 1;
      assert options[..n][..k] == options[..k];
      assert forall o :: o in options[..n] ==> o in options;
      AccumulatedFailed(options[..n], fraction, k);
    } else {
      assert options[..k] == options;
    }
  }

  /** The deployment loop of `simulate_technology_deployment` over the cost-effective options. */
  method Accumulate(options: seq<DeploymentOption>, fraction: real) returns (r: Result<Totals>)
    requires forall o :: o in options ==> o.lcoa.Finite?
    ensures r == Accumulated(options, fraction)
  {
    var totalDeploymentKt, totalAbatementKt, cumulativeInvestment, productionCostPremium := 0.0, 0.0, 0.0, 0.0;
    var i := 0;
    while i < |options|
      invariant i <= |options|
      invariant forall o :: o in options[..i] ==> o in options
      invariant Accumulated(options[..i], fraction) == Ok(Totals(totalDeploymentKt, totalAbatementKt, cumulativeInvestment, productionCostPremium))
    {
      assert options[..i + 1][..i] == options[..i];
      assert options[i] in options;
      assert forall o :: o in options[..i + 1] ==> o in options;
      var tech := options[i];
      if tech.maxDeploymentKt == 0.0 {
        AccumulatedFailed(options, fraction, i + 1);
        return Err(ZeroDivisionError);
      }
      var maxDeploy := DeployedKt(tech, fraction);
      totalDeploymentKt := totalDeploymentKt + maxDeploy;
      totalAbatementKt := totalAbatementKt + OptimizationV2.Scale(maxDeploy, tech.abatementPerT);
      cumulativeInvestment := cumulativeInvestment + OptimizationV2.Scale(maxDeploy, tech.capexMillionUsd) / tech.maxDeploymentKt;
      productionCostPremium := productionCostPremium + OptimizationV2.Scale(OptimizationV2.Scale(maxDeploy, tech.lcoa.v), tech.abatementPerT) / 1000.0;
      i := i + 1;
    }
    assert options[..i] == options;
    return Ok(Totals(totalDeploymentKt, totalAbatementKt, cumulativeInvestment, productionCostPremium));
  }

  /** The options' full capacity (kt), abatement potential (kt CO2) and capex (million USD). */
  function Capacity(options: seq<DeploymentOption>): real
    decreases |options|
  {
    if |options| == 0 then 0.0 else Capacity(options[..|options| - 1]) + options[|options| - 1].maxDeploymentKt
  }

  function Potential(options: seq<DeploymentOption>): real
    decreases |options|
  {
    if |options| == 0 then 0.0 else Potential(options[..|options| - 1]) + options[|options| - 1].totalAbatementKt
  }

  function Capex(options: seq<DeploymentOption>): real
    decreases |options|
  {
    if |options| == 0 then 0.0 else Capex(options[..|options| - 1]) + options[|options| - 1].capexMillionUsd
  }

  lemma {:induction false} FractionOfProduct(o: DeploymentOption, f: real)
    ensures OptimizationV2.Scale(DeployedKt(o, f), o.abatementPerT) == OptimizationV2.Scale(f, OptimizationV2.Scale(o.maxDeploymentKt, o.abatementPerT))
  {
    assert (o.maxDeploymentKt * f) * o.abatementPerT == f * (o.maxDeploymentKt * o.abatementPerT);
  }

  lemma {:induction false} FractionOfCapex(o: DeploymentOption, f: real)
    requires o.maxDeploymentKt != 0.0
    ensures OptimizationV2.Scale(DeployedKt(o, f), o.capexMillionUsd) / o.maxDeploymentKt == OptimizationV2.Scale(f, o.capexMillionUsd)
  {
    assert (o.maxDeploymentKt * f) * o.capexMillionUsd == o.maxDeploymentKt * (f * o.capexMillionUsd);
  }

  /**
   * The loop deploys the same fraction of every option: the year's
   * deployment, abatement and investment are the fraction times the
   * options' full capacity, abatement potential and capex.
   */
  lemma {:induction false} AccumulatedIsFraction(options: seq<DeploymentOption>, fraction: real)
    requires forall o :: o in options ==> o.lcoa.Finite? && WellFormed(o)
    requires Accumulated(options, fraction).Ok?
    ensures Accumulated(options, fraction).value.deploymentKt == OptimizationV2.Scale(fraction, Capacity(options))
    ensures Accumulated(options, fraction).value.abatementKt == OptimizationV2.Scale(fraction, Potential(options))
    ensures Accumulated(options, fraction).value.investmentMillionUsd == OptimizationV2.Scale(fraction, Capex(options))
  {
    DeployedIsFraction(options, fraction);
    AbatedIsFraction(options, fraction);
    InvestedIsFraction(options, fraction);
  }

  /** Every prefix of a run that completes completes too. */
  lemma {:induction false} AccumulatedPrefix(options: seq<DeploymentOption>, fraction: real)
    requires |options| > 0
    requires forall o :: o in options ==> o.lcoa.Finite?
    requires Accumulated(options, fraction).Ok?
    ensures forall o :: o in options[..|options| - 1] ==> o.lcoa.Finite?
    ensures Accumulated(options[..|options| - 1], fraction).Ok?
    ensures options[|options| - 1].maxDeploymentKt != 0.0
    ensures Accumulated(options, fraction) == Step(Accumulated(options[..|options| - 1], fraction).value, options[|options| - 1], fraction)
  {
    assert forall o :: o in options[..|options| - 1] ==> o in options;
  }

  lemma {:induction false} DeployedIsFraction(options: seq<DeploymentOption>, fraction: real)
    requires forall o :: o in options ==> o.lcoa.Finite?
    requires Accumulated(options, fraction).Ok?
    ensures Accumulated(options, fraction).value.deploymentKt == OptimizationV2.Scale(fraction, Capacity(options))
    decreases |options|
  {
    if |options| == 0 {
      assert fraction * 0.0 == 0.0;
    } else {
      var n := |options| - 1;
      AccumulatedPrefix(options, fraction);
      DeployedIsFraction(options[..n], fraction);
      OptimizationV2.ScaleAdds(Accumulated(options, fraction).value.deploymentKt, Capacity(options),
        Accumulated(options[..n], fraction).value.deploymentKt, Capacity(options[..n]),
        DeployedKt(options[n], fraction), options[n].maxDeploymentKt, fraction);
    }
  }

  lemma {:induction false} AbatedIsFraction(options: seq<DeploymentOption>, fraction: real)
    requires forall o :: o in options ==> o.lcoa.Finite? && WellFormed(o)
    requires Accumulated(options, fraction).Ok?
    ensures Accumulated(options, fraction).value.abatementKt == OptimizationV2.Scale(fraction, Potential(options))
    decreases |options|
  {
    if |options| == 0 {
      assert fraction * 0.0 == 0.0;
    } else {
      var n := |options| - 1;
      AccumulatedPrefix(options, fraction);
      assert options[n] in options;
      assert forall o :: o in options[..n] ==> o in options;
      AbatedIsFraction(options[..n], fraction);
      FractionOfProduct(options[n], fraction);
      OptimizationV2.ScaleAdds(Accumulated(options, fraction).value.abatementKt, Potential(options),
        Accumulated(options[..n], fraction).value.abatementKt, Potential(options[..n]),
        OptimizationV2.Scale(DeployedKt(options[n], fraction), options[n].abatementPerT), options[n].totalAbatementKt, fraction);
    }
  }

  lemma {:induction false} InvestedIsFraction(options: seq<DeploymentOption>, fraction: real)
    requires forall o :: o in options ==> o.lcoa.Finite?
    requires Accumulated(options, fraction).Ok?
    ensures Accumulated(options, fraction).value.investmentMillionUsd == OptimizationV2.Scale(fraction, Capex(options))
    decreases |options|
  {
    if |options| == 0 {
      assert fraction * 0.0 == 0.0;
    } else {
      var n := |options| - 1;
      AccumulatedPrefix(options, fraction);
      InvestedIsFraction(options[..n], fraction);
      FractionOfCapex(options[n], fraction);
      OptimizationV2.ScaleAdds(Accumulated(options, fraction).value.investmentMillionUsd, Capex(options),
        Accumulated(options[..n], fraction).value.investmentMillionUsd, Capex(options[..n]),
        OptimizationV2.Scale(DeployedKt(options[n], fraction), options[n].capexMillionUsd) / options[n].maxDeploymentKt,
        options[n].capexMillionUsd, fraction);
    }
  }

  /** Every option abates something if it costs a finite amount, so the potential is never negative. */
  lemma {:induction false} PotentialNonNegative(options: seq<DeploymentOption>)
    requires forall o :: o in options ==> o.lcoa.Finite? && WellFormed(o) && o.maxDeploymentKt >= 0.0
    ensures Potential(options) >= 0.0
    decreases |options|
  {
    if |options| > 0 {
      var n := |options| - 1;
      assert options[n] in options;
      assert forall o :: o in options[..n] ==> o in options;
      PotentialNonNegative(options[..n]);
      MulNonNegative(options[n].maxDeploymentKt, options[n].abatementPerT);
    }
  }

  // ---------------------------------------------------------------------
  // The simulated pathway
  // ---------------------------------------------------------------------

  /**
   * One year of the pathway (Mt CO2, billion USD). The script reports the
   * reduction as the alternative emissions too. A year without any
   * available technology has no deployment fraction (NaN in the frame).
   */
  datatype SimulatedYear = SimulatedYear(
    year: int,
    baselineMt: real,
    alternativeMt: real,
    totalMt: real,
    reductionMt: real,
    investmentBillionUsd: real,
    productionCostBillionUsd: real,
    deploymentFraction: Option<real>)

  /** Billion USD of production cost per Mt of baseline emissions. */
  const BaselineCostFactor := 0.5

  /**
   * A year of `simulate_technology_deployment` from that year's options:
   * the baseline when nothing is available yet, else the year's fraction of
   * every cost-effective option. An empty matrix has no columns (KeyError).
   */
  function YearOutcome(options: seq<DeploymentOption>, baselineMt: real, year: int): (r: Result<SimulatedYear>)
    ensures r.Err? ==> r.error == KeyError || r.error == ZeroDivisionError
    ensures r.Err? && r.error == KeyError <==> |options| == 0
    ensures r.Ok? ==> r.value.year == year && r.value.baselineMt == baselineMt
    ensures r.Ok? ==> (r.value.deploymentFraction.None? <==> forall o :: o in options ==> o.commercialYear > year)
    ensures r.Ok? && r.value.deploymentFraction.None? ==>
      r.value.totalMt == baselineMt && r.value.reductionMt == 0.0 && r.value.investmentBillionUsd == 0.0
  {
    if |options| == 0 then Err(KeyError)
    else if |Available(options, year)| == 0 then Ok(IdleYear(baselineMt, year))
    else
      assert Available(options, year)[0] in Available(options, year);
      match Accumulated(CostEffective(Available(options, year)), DeploymentFraction(year))
      case Err(e) => Err(e)
      case Ok(t) => Ok(DeployedYear(baselineMt, year, t))
  }

  /** A year before any technology is commercially available. */
  function IdleYear(baselineMt: real, year: int): SimulatedYear
  {
    SimulatedYear(year, baselineMt, 0.0, baselineMt, 0.0, 0.0, baselineMt * BaselineCostFactor, None)
  }

  /** A year whose cost-effective options were deployed at the year's fraction, in Mt and billion USD. */
  function DeployedYear(baselineMt: real, year: int, t: Totals): SimulatedYear
  {
    var emissionReduction := t.abatementKt / 1000.0;
    SimulatedYear(year, baselineMt, emissionReduction, Max(0.0, baselineMt - emissionReduction),
      emissionReduction, t.investmentMillionUsd / 1000.0,
      baselineMt * BaselineCostFactor + t.premiumMillionUsd / 1000.0, Some(DeploymentFraction(year)))
  }

  /** The deployed options abate a non-negative amount when the fraction and the capacities are non-negative. */
  lemma {:induction false} DeployedAbatementNonNegative(available: seq<DeploymentOption>, fraction: real)
    requires forall o :: o in available ==> WellFormed(o) && o.maxDeploymentKt >= 0.0
    requires fraction >= 0.0
    requires Accumulated(CostEffective(available), fraction).Ok?
    ensures Accumulated(CostEffective(available), fraction).value.abatementKt >= 0.0
  {
    CostEffectiveKeeps(available);
    AccumulatedIsFraction(CostEffective(available), fraction);
    PotentialNonNegative(CostEffective(available));
    ScaledNonNegative(Accumulated(CostEffective(available), fraction).value.abatementKt, fraction, Potential(CostEffective(available)));
  }

  lemma ScaledNonNegative(x: real, f: real, p: real)
    requires x == OptimizationV2.Scale(f, p) && f >= 0.0 && p >= 0.0
    ensures x >= 0.0
  {
    MulNonNegative(f, p);
  }

  lemma CostEffectiveKeeps(available: seq<DeploymentOption>)
    requires forall o :: o in available ==> WellFormed(o) && o.maxDeploymentKt >= 0.0
    ensures forall o :: o in CostEffective(available) ==> o.lcoa.Finite? && WellFormed(o) && o.maxDeploymentKt >= 0.0
  {
  }

  /** A deployed year never reports more emissions than the baseline, nor fewer than none. */
  lemma {:induction false} DeployedYearWithinBaseline(baselineMt: real, year: int, t: Totals)
    requires baselineMt >= 0.0 && t.abatementKt >= 0.0
    ensures var y := DeployedYear(baselineMt, year, t);
      y.reductionMt >= 0.0 && 0.0 <= y.totalMt <= baselineMt &&
      (y.reductionMt <= baselineMt ==> y.totalMt == baselineMt - y.reductionMt) &&
      (y.reductionMt > baselineMt ==> y.totalMt == 0.0)
  {
  }

  /**
   * From 2023 on, with a non-negative baseline and capacities, deployment
   * never raises emissions: the reduction is non-negative, the remaining
   * emissions lie between 0 and the baseline, and they are the baseline
   * minus the reduction unless that would be negative.
   */
  lemma {:induction false} EmissionsWithinBaseline(options: seq<DeploymentOption>, baselineMt: real, year: int)
    requires YearOutcome(options, baselineMt, year).Ok?
    requires baselineMt >= 0.0 && year >= BaselineYear
    requires forall o :: o in options ==> WellFormed(o) && o.maxDeploymentKt >= 0.0
    ensures var y := YearOutcome(options, baselineMt, year).value;
      y.reductionMt >= 0.0 && 0.0 <= y.totalMt <= baselineMt &&
      (y.reductionMt <= baselineMt ==> y.totalMt == baselineMt - y.reductionMt) &&
      (y.reductionMt > baselineMt ==> y.totalMt == 0.0)
  {
    var available := Available(options, year);
    if |available| > 0 {
      DeploymentRamp(year, year);
      DeployedAbatementNonNegative(available, DeploymentFraction(year));
      var t := Accumulated(CostEffective(available), DeploymentFraction(year)).value;
      assert YearOutcome(options, baselineMt, year).value == DeployedYear(baselineMt, year, t);
      DeployedYearWithinBaseline(baselineMt, year, t);
    }
  }

  /**
   * The year's investment is its deployment fraction of the capex of every
   * cost-effective option, and its reduction that fraction of their
   * abatement potential.
   */
  lemma {:induction false} YearIsFractionOfCostEffective(options: seq<DeploymentOption>, baselineMt: real, year: int)
    requires YearOutcome(options, baselineMt, year).Ok?
    requires YearOutcome(options, baselineMt, year).value.deploymentFraction.Some?
    requires forall o :: o in options ==> WellFormed(o)
    ensures var y := YearOutcome(options, baselineMt, year).value;
      y.deploymentFraction == Some(DeploymentFraction(year)) &&
      y.investmentBillionUsd * 1000.0 == OptimizationV2.Scale(DeploymentFraction(year), Capex(CostEffective(Available(options, year)))) &&
      y.reductionMt * 1000.0 == OptimizationV2.Scale(DeploymentFraction(year), Potential(CostEffective(Available(options, year))))
  {
    var ce := CostEffective(Available(options, year));
    assert forall o :: o in ce ==> o.lcoa.Finite? && WellFormed(o);
    AccumulatedIsFraction(ce, DeploymentFraction(year));
  }

  /** One year of the loop, with the deployment loop as a method. */
  method SimulateYear(options: seq<DeploymentOption>, baselineMt: real, year: int) returns (r: Result<SimulatedYear>)
    ensures r == YearOutcome(options, baselineMt, year)
  {
    if |options| == 0 {
      return Err(KeyError);
    }
    var available := Available(options, year);
    if |available| == 0 {
      return Ok(IdleYear(baselineMt, year));
    }
    var costEffective := CostEffective(available);
    var totals := Accumulate(costEffective, DeploymentFraction(year));
    if totals.Err? {
      return Err(totals.error);
    }
    return Ok(DeployedYear(baselineMt, year, totals.value));
  }

  /** The pathway over the years: each year's matrix at that year's factors and prices, then its outcome. */
  function PathwayOver(facilities: seq<Facility>, techs: seq<Technology>, bands: seq<BandConsumption>,
                       efs: seq<FacilityV3.EmissionFactors>, fps: seq<FuelPrices>, baselineMt: real, years: seq<int>): (r: Result<seq<SimulatedYear>>)
    ensures r.Ok? ==> FollowsYears(r.value, years)
    decreases |years|
  {
    if |years| == 0 then Ok([])
    else
      var n := |years| - 1;
      assert years[..n] + [years[n]] == years;
      match PathwayOver(facilities, techs, bands, efs, fps, baselineMt, years[..n])
      case Err(e) => Err(e)
      case Ok(prev) =>
        match PathwayYear(facilities, techs, bands, efs, fps, baselineMt, years[n])
        case Err(e) => Err(e)
        case Ok(y) =>
          FollowsYearsAppend(prev, years[..n], y, years[n]);
          Ok(prev + [y])
  }

  /** One iteration of the loop over the years: the year's matrix, then its outcome. */
  function PathwayYear(facilities: seq<Facility>, techs: seq<Technology>, bands: seq<BandConsumption>,
                       efs: seq<FacilityV3.EmissionFactors>, fps: seq<FuelPrices>, baselineMt: real, year: int): (r: Result<SimulatedYear>)
    ensures r.Ok? ==> r.value.year == year && r.value.baselineMt == baselineMt
  {
    match Matrix(facilities, techs, bands, efs, fps, year)
    case Err(e) => Err(e)
    case Ok(options) => YearOutcome(options, baselineMt, year)
  }

  /** `simulate_technology_deployment`: the 2023 baseline, then one row per year. */
  function Simulation(facilities: seq<Facility>, techs: seq<Technology>, bands: seq<BandConsumption>,
                      efs: seq<FacilityV3.EmissionFactors>, fps: seq<FuelPrices>, years: seq<int>): (r: Result<seq<SimulatedYear>>)
    ensures |efs| == 0 ==> r == Err(IndexError)
    ensures r.Ok? ==> FollowsYears(r.value, years)
  {
    match BaselineEmissions(bands, efs)
    case Err(e) => Err(e)
    case Ok(b) => PathwayOver(facilities, techs, bands, efs, fps, b, years)
  }

  /** Rows that follow the requested years one for one, in order. */
  predicate FollowsYears(rows: seq<SimulatedYear>, years: seq<int>)
  {
    |rows| == |years| && forall i :: 0 <= i < |years| ==> rows[i].year == years[i]
  }

  lemma {:induction false} FollowsYearsAppend(rows: seq<SimulatedYear>, years: seq<int>, row: SimulatedYear, year: int)
    requires FollowsYears(rows, years) && row.year == year
    ensures FollowsYears(rows + [row], years + [year])
  {
    forall i | 0 <= i < |years| + 1
      ensures (rows + [row])[i].year == (years + [year])[i]
    {
      if i < |years| {
        assert (rows + [row])[i] == rows[i] && (years + [year])[i] == years[i];
      }
    }
  }

  lemma {:induction false} PathwayOverFailed(facilities: seq<Facility>, techs: seq<Technology>, bands: seq<BandConsumption>,
                                             efs: seq<FacilityV3.EmissionFactors>, fps: seq<FuelPrices>, baselineMt: real, years: seq<int>, k: nat)
    requires k <= |years| && PathwayOver(facilities, techs, bands, efs, fps, baselineMt, years[..k]).Err?
    ensures PathwayOver(facilities, techs, bands, efs, fps, baselineMt, years) == PathwayOver(facilities, techs, bands, efs, fps, baselineMt, years[..k])
    decreases |years|
  {
    if k < |years| {
      var n := |years| - 1;
      assert years[..n][..k] == years[..k];
      PathwayOverFailed(facilities, techs, bands, efs, fps, baselineMt, years[..n], k);
      PathwayOverStops(facilities, techs, bands, efs, fps, baselineMt, years);
    } else {
      assert years[..k] == years;
    }
  }

  lemma PathwayOverStops(facilities: seq<Facility>, techs: seq<Technology>, bands: seq<BandConsumption>,
                         efs: seq<FacilityV3.EmissionFactors>, fps: seq<FuelPrices>, baselineMt: real, years: seq<int>)
    requires |years| > 0 && PathwayOver(facilities, techs, bands, efs, fps, baselineMt, years[..|years| - 1]).Err?
    ensures PathwayOver(facilities, techs, bands, efs, fps, baselineMt, years) == PathwayOver(facilities, techs, bands, efs, fps, baselineMt, years[..|years| - 1])
  {
  }

  /** The loop over the years. */
  method SimulateTechnologyDeployment(facilities: seq<Facility>, techs: seq<Technology>, bands: seq<BandConsumption>,
                                      efs: seq<FacilityV3.EmissionFactors>, fps: seq<FuelPrices>, years: seq<int>)
    returns (r: Result<seq<SimulatedYear>>)
    ensures r == Simulation(facilities, techs, bands, efs, fps, years)
  {
    var totalBaseline, _ := CalculateBaselineEmissions(bands, efs);
    if totalBaseline.Err? {
      return Err(totalBaseline.error);
    }
    var pathway: seq<SimulatedYear> := [];
    var i := 0;
    while i < |years|
      invariant i <= |years|
      invariant PathwayOver(facilities, techs, bands, efs, fps, totalBaseline.value, years[..i]) == Ok(pathway)
    {
      assert years[..i + 1][..i] == years[..i];
      var options := CreateFacilityTechnologyMatrix(facilities, techs, bands, efs, fps, years[i]);
      if options.Err? {
        PathwayOverFailed(facilities, techs, bands, efs, fps, totalBaseline.value, years, i + 1);
        return Err(options.error);
      }
      var yearData := SimulateYear(options.value, totalBaseline.value, years[i]);
      if yearData.Err? {
        PathwayOverFailed(facilities, techs, bands, efs, fps, totalBaseline.value, years, i + 1);
        return Err(yearData.error);
      }
      pathway := pathway + [yearData.value];
      i := i + 1;
    }
    assert years[..i] == years;
    return Ok(pathway);
  }

  // ---------------------------------------------------------------------
  // Technology shares
  // ---------------------------------------------------------------------

  /**
   * One technology's slice of a year's deployment. In a year without a
   * deployment fraction the capacity is NaN in the frame (`None` here) and
   * the share falls back to 0.
   */
  datatype TechShare = TechShare(year: int, technology: string, capacityKt: Option<real>, share: real)

  function Technologies(options: seq<DeploymentOption>): (r: seq<string>)
    ensures |r| == |options| && forall i :: 0 <= i < |options| ==> r[i] == options[i].technology
  {
    seq(|options|, i requires 0 <= i < |options| => options[i].technology)
  }

  /** The summed maximum deployment of one technology's options. */
  function GroupMax(options: seq<DeploymentOption>, technology: string): real
    decreases |options|
  {
    if |options| == 0 then 0.0
    else GroupMax(options[..|options| - 1], technology) + Contribution(options[|options| - 1], technology)
  }

  /** What one option adds to a technology's maximum deployment. */
  function Contribution(o: DeploymentOption, technology: string): real
  {
    if o.technology == technology then o.maxDeploymentKt else 0.0
  }

  /** The summed maximum deployment of the listed technologies. */
  function ListedMax(options: seq<DeploymentOption>, technologies: seq<string>): real
    decreases |technologies|
  {
    if |technologies| == 0 then 0.0
    else ListedMax(options, technologies[..|technologies| - 1]) + GroupMax(options, technologies[|technologies| - 1])
  }

  /** The technologies of the available options, each once, in name order (the index of `groupby`). */
  function GroupNames(available: seq<DeploymentOption>): seq<string>
  {
    Strings.SortedUnique(Technologies(available))
  }

  /** The year's deployment: the sum over the groups, times the fraction. */
  function DeployedTotal(available: seq<DeploymentOption>, fraction: real): real
  {
    OptimizationV2.Scale(fraction, ListedMax(available, GroupNames(available)))
  }

  /** One technology's row: its deployed capacity and that capacity over the year's total when that total is positive. */
  function ShareFor(available: seq<DeploymentOption>, technology: string, year: int, fraction: Option<real>): TechShare
  {
    match fraction
    case None => TechShare(year, technology, None, 0.0)
    case Some(f) =>
      var capacity := OptimizationV2.Scale(f, GroupMax(available, technology));
      var total := DeployedTotal(available, f);
      TechShare(year, technology, Some(capacity), if total > 0.0 then capacity / total else 0.0)
  }

  /** One row per listed technology, in order. */
  function ShareRowsFor(available: seq<DeploymentOption>, technologies: seq<string>, year: int, fraction: Option<real>): (r: seq<TechShare>)
    ensures |r| == |technologies|
    ensures forall i :: 0 <= i < |r| ==> r[i].year == year && r[i].technology == technologies[i]
    decreases |technologies|
  {
    if |technologies| == 0 then []
    else
      var n := |technologies| - 1;
      ShareRowsFor(available, technologies[..n], year, fraction) + [ShareFor(available, technologies[n], year, fraction)]
  }

  lemma {:induction false} ShareRowsForAt(available: seq<DeploymentOption>, technologies: seq<string>, year: int, fraction: Option<real>, i: nat)
    requires i < |technologies|
    ensures ShareRowsFor(available, technologies, year, fraction)[i] == ShareFor(available, technologies[i], year, fraction)
    decreases |technologies|
  {
    var n := |technologies| - 1;
    if i < n {
      ShareRowsForAt(available, technologies[..n], year, fraction, i);
    }
  }

  /** A year's rows: one per technology of the available options. */
  function YearShares(available: seq<DeploymentOption>, year: int, fraction: Option<real>): (r: seq<TechShare>)
    ensures forall s :: s in r ==> s.year == year
  {
    ShareRowsFor(available, GroupNames(available), year, fraction)
  }

  /**
   * The groups are the technologies of the available options, each once, in
   * ascending name order; a year has one row per group (`ShareRowsFor`).
   */
  lemma {:induction false} GroupsAreTheTechnologies(available: seq<DeploymentOption>)
    ensures Strings.StrictlySortedStrings(GroupNames(available))
    ensures forall t :: t in GroupNames(available) ==> exists o :: o in available && o.technology == t
    ensures forall o :: o in available ==> o.technology in GroupNames(available)
  {
    Strings.SortedUniqueSorted(Technologies(available));
    forall t | t in GroupNames(available)
      ensures exists o :: o in available && o.technology == t
    {
      GroupOfAnOption(available, t);
    }
    forall o | o in available
      ensures o.technology in GroupNames(available)
    {
      var k :| 0 <= k < |available| && available[k] == o;
      assert Technologies(available)[k] == o.technology;
    }
  }

  lemma GroupOfAnOption(available: seq<DeploymentOption>, t: string)
    requires t in GroupNames(available)
    ensures exists o :: o in available && o.technology == t
  {
    var k :| 0 <= k < |available| && Technologies(available)[k] == t;
    assert available[k] in available;
  }

  function SumShares(rows: seq<TechShare>): real
    decreases |rows|
  {
    if |rows| == 0 then 0.0 else SumShares(rows[..|rows| - 1]) + rows[|rows| - 1].share
  }

  lemma {:induction false} SharesAddUp(available: seq<DeploymentOption>, technologies: seq<string>, year: int, f: real)
    requires DeployedTotal(available, f) > 0.0
    ensures SumShares(ShareRowsFor(available, technologies, year, Some(f))) ==
      OptimizationV2.Scale(f, ListedMax(available, technologies)) / DeployedTotal(available, f)
    decreases |technologies|
  {
    if |technologies| > 0 {
      var n := |technologies| - 1;
      SharesAddUp(available, technologies[..n], year, f);
      LastShare(available, technologies, year, f);
      ScaledListedMax(available, technologies, f);
      OptimizationV2.DivideSum(SumShares(ShareRowsFor(available, technologies, year, Some(f))),
        SumShares(ShareRowsFor(available, technologies[..n], year, Some(f))),
        OptimizationV2.Scale(f, ListedMax(available, technologies)),
        OptimizationV2.Scale(f, ListedMax(available, technologies[..n])),
        OptimizationV2.Scale(f, GroupMax(available, technologies[n])), DeployedTotal(available, f));
    }
  }

  lemma LastShare(available: seq<DeploymentOption>, technologies: seq<string>, year: int, f: real)
    requires DeployedTotal(available, f) > 0.0 && |technologies| > 0
    ensures SumShares(ShareRowsFor(available, technologies, year, Some(f))) ==
      SumShares(ShareRowsFor(available, technologies[..|technologies| - 1], year, Some(f))) +
      OptimizationV2.Scale(f, GroupMax(available, technologies[|technologies| - 1])) / DeployedTotal(available, f)
  {
    var n := |technologies| - 1;
    assert ShareRowsFor(available, technologies, year, Some(f))[..n] == ShareRowsFor(available, technologies[..n], year, Some(f));
  }

  lemma ScaledListedMax(available: seq<DeploymentOption>, technologies: seq<string>, f: real)
    requires |technologies| > 0
    ensures OptimizationV2.Scale(f, ListedMax(available, technologies)) ==
      OptimizationV2.Scale(f, ListedMax(available, technologies[..|technologies| - 1])) +
      OptimizationV2.Scale(f, GroupMax(available, technologies[|technologies| - 1]))
  {
    ScaleSplits(f, ListedMax(available, technologies[..|technologies| - 1]), GroupMax(available, technologies[|technologies| - 1]));
  }

  lemma ScaleSplits(f: real, a: real, b: real)
    ensures OptimizationV2.Scale(f, a + b) == OptimizationV2.Scale(f, a) + OptimizationV2.Scale(f, b)
  {
    assert f * (a + b) == f * a + f * b;
  }

  /** Whenever the year's deployment is positive, its shares add up to 1. */
  lemma {:induction false} YearSharesSumToOne(available: seq<DeploymentOption>, year: int, f: real)
    requires DeployedTotal(available, f) > 0.0
    ensures SumShares(YearShares(available, year, Some(f))) == 1.0
  {
    SharesAddUp(available, GroupNames(available), year, f);
    OptimizationV2.SelfQuotient(OptimizationV2.Scale(f, ListedMax(available, GroupNames(available))), DeployedTotal(available, f));
  }

  /** Without a fraction, or with nothing deployed, every share is 0. */
  lemma {:induction false} YearSharesZero(available: seq<DeploymentOption>, year: int, fraction: Option<real>)
    requires fraction.None? || DeployedTotal(available, fraction.value) <= 0.0
    ensures forall s :: s in YearShares(available, year, fraction) ==> s.share == 0.0
  {
    var rows := YearShares(available, year, fraction);
    forall s | s in rows
      ensures s.share == 0.0
    {
      var i :| 0 <= i < |rows| && rows[i] == s;
      ShareRowsForAt(available, GroupNames(available), year, fraction, i);
    }
  }

  lemma {:induction false} ListedMaxLast(options: seq<DeploymentOption>, technologies: seq<string>)
    requires |options| > 0
    ensures ListedMax(options, technologies) ==
      ListedMax(options[..|options| - 1], technologies) + OptimizationV2.Hits(technologies, options[|options| - 1].technology, options[|options| - 1].maxDeploymentKt)
    decreases |technologies|
  {
    if |technologies| > 0 {
      ListedMaxLast(options, technologies[..|technologies| - 1]);
    }
  }

  lemma {:induction false} ListedMaxOfNothing(technologies: seq<string>)
    ensures ListedMax([], technologies) == 0.0
    decreases |technologies|
  {
    if |technologies| > 0 {
      ListedMaxOfNothing(technologies[..|technologies| - 1]);
    }
  }

  /** Summing the groups of distinct technologies that cover every option sums every option once. */
  lemma {:induction false} ListedMaxIsCapacity(options: seq<DeploymentOption>, technologies: seq<string>)
    requires OptimizationV2.Distinct(technologies)
    requires forall o :: o in options ==> o.technology in technologies
    ensures ListedMax(options, technologies) == Capacity(options)
    decreases |options|
  {
    if |options| == 0 {
      ListedMaxOfNothing(technologies);
    } else {
      var n := |options| - 1;
      assert forall o :: o in options[..n] ==> o in options;
      assert options[n] in options;
      ListedMaxIsCapacity(options[..n], technologies);
      ListedMaxLast(options, technologies);
      OptimizationV2.HitsOnce(technologies, options[n].technology, options[n].maxDeploymentKt);
    }
  }

  /** The year's deployment is the fraction of the whole capacity of the available options. */
  lemma {:induction false} DeployedTotalIsCapacity(available: seq<DeploymentOption>, f: real)
    ensures DeployedTotal(available, f) == OptimizationV2.Scale(f, Capacity(available))
  {
    var names := GroupNames(available);
    Strings.SortedUniqueSorted(Technologies(available));
    Strings.StrictlySortedDistinct(names);
    forall o | o in available
      ensures o.technology in names
    {
      var k :| 0 <= k < |available| && available[k] == o;
      assert Technologies(available)[k] == o.technology;
    }
    ListedMaxIsCapacity(available, names);
  }

  /**
   * With a positive fraction and a positive deployment, a technology's
   * share is its group's part of the available capacity, whatever the
   * fraction.
   */
  lemma {:induction false} ShareIsGroupFraction(available: seq<DeploymentOption>, year: int, f: real, i: nat)
    requires f > 0.0 && DeployedTotal(available, f) > 0.0
    requires i < |GroupNames(available)|
    ensures Capacity(available) != 0.0
    ensures YearShares(available, year, Some(f))[i].share == GroupMax(available, GroupNames(available)[i]) / Capacity(available)
  {
    var names := GroupNames(available);
    var rows := YearShares(available, year, Some(f));
    ShareRowsForAt(available, names, year, Some(f), i);
    DeployedTotalIsCapacity(available, f);
    OptimizationV2.CancelFactor(rows[i].share, OptimizationV2.Scale(f, GroupMax(available, names[i])), DeployedTotal(available, f),
      GroupMax(available, names[i]) / Capacity(available), GroupMax(available, names[i]), Capacity(available), f);
  }

  /**
   * The deployment fraction of `year` in the pathway: that of its first row.
   * A pathway none of whose rows has a fraction has no such column.
   */
  function FractionFor(pathway: seq<SimulatedYear>, year: int): (r: Result<Option<real>>)
    ensures r == Err(KeyError) <==> forall p :: p in pathway ==> p.deploymentFraction.None?
    ensures r == Err(IndexError) <==>
      (exists p :: p in pathway && p.deploymentFraction.Some?) && forall p :: p in pathway ==> p.year != year
    ensures r.Ok? ==> exists k :: 0 <= k < |pathway| && pathway[k].year == year && r.value == pathway[k].deploymentFraction &&
                                 forall j :: 0 <= j < k ==> pathway[j].year != year
  {
    if forall p :: p in pathway ==> p.deploymentFraction.None? then Err(KeyError)
    else
      match FacilityV3.FirstIndexOfYear(pathway, (p: SimulatedYear) => p.year, year, 0)
      case None => Err(IndexError)
      case Some(k) => Ok(pathway[k].deploymentFraction)
  }

  function PathwayYears(pathway: seq<SimulatedYear>): (r: seq<int>)
    ensures |r| == |pathway| && forall i :: 0 <= i < |pathway| ==> r[i] == pathway[i].year
  {
    seq(|pathway|, i requires 0 <= i < |pathway| => pathway[i].year)
  }

  /** The shares of each listed year that has an available option, in order. */
  function SharesOver(options: seq<DeploymentOption>, pathway: seq<SimulatedYear>, years: seq<int>): (r: Result<seq<TechShare>>)
    ensures r.Err? ==> r.error == KeyError || r.error == IndexError
    ensures r.Ok? ==> forall s :: s in r.value ==> s.year in years && |Available(options, s.year)| > 0
    decreases |years|
  {
    if |years| == 0 then Ok([])
    else
      var n := |years| - 1;
      assert forall y :: y in years[..n] ==> y in years;
      match SharesOver(options, pathway, years[..n])
      case Err(e) => Err(e)
      case Ok(prev) =>
        if |Available(options, years[n])| == 0 then Ok(prev)
        else
          match FractionFor(pathway, years[n])
          case Err(e) => Err(e)
          case Ok(fraction) => Ok(prev + YearShares(Available(options, years[n]), years[n], fraction))
  }

  /**
   * `calculate_technology_shares`: the shares of every pathway year that has
   * an available option. An empty pathway or matrix has no columns.
   */
  function TechnologyShares(options: seq<DeploymentOption>, pathway: seq<SimulatedYear>): (r: Result<seq<TechShare>>)
    ensures |pathway| == 0 || |options| == 0 ==> r == Err(KeyError)
    ensures r.Ok? ==> forall s :: s in r.value ==>
      (exists p :: p in pathway && p.year == s.year) && exists o :: o in options && o.commercialYear <= s.year
  {
    if |pathway| == 0 || |options| == 0 then Err(KeyError)
    else
      var r := SharesOver(options, pathway, PathwayYears(pathway));
      assert r.Ok? ==> forall s :: s in r.value ==> exists p :: p in pathway && p.year == s.year by {
        if r.Ok? {
          forall s | s in r.value
            ensures exists p :: p in pathway && p.year == s.year
          {
            var k :| 0 <= k < |pathway| && PathwayYears(pathway)[k] == s.year;
            assert pathway[k] in pathway;
          }
        }
      }
      assert r.Ok? ==> forall s :: s in r.value ==> Available(options, s.year)[0] in Available(options, s.year);
      r
  }

  /** The years come from the pathway itself, so looking one up never fails for want of a row. */
  lemma {:induction false} SharesOverFindsEveryYear(options: seq<DeploymentOption>, pathway: seq<SimulatedYear>, years: seq<int>)
    requires forall y :: y in years ==> exists p :: p in pathway && p.year == y
    ensures SharesOver(options, pathway, years) != Err(IndexError)
    decreases |years|
  {
    if |years| > 0 {
      var n := |years| - 1;
      assert forall y :: y in years[..n] ==> y in years;
      SharesOverFindsEveryYear(options, pathway, years[..n]);
      assert years[n] in years;
    }
  }

  lemma {:induction false} TechnologySharesFindEveryYear(options: seq<DeploymentOption>, pathway: seq<SimulatedYear>)
    ensures TechnologyShares(options, pathway) != Err(IndexError)
  {
    if |pathway| > 0 && |options| > 0 {
      forall y | y in PathwayYears(pathway)
        ensures exists p :: p in pathway && p.year == y
      {
        var k :| 0 <= k < |pathway| && PathwayYears(pathway)[k] == y;
        assert pathway[k] in pathway;
      }
      SharesOverFindsEveryYear(options, pathway, PathwayYears(pathway));
    }
  }

  lemma {:induction false} SharesOverFailed(options: seq<DeploymentOption>, pathway: seq<SimulatedYear>, years: seq<int>, k: nat)
    requires k <= |years| && SharesOver(options, pathway, years[..k]).Err?
    ensures SharesOver(options, pathway, years) == SharesOver(options, pathway, years[..k])
    decreases |years|
  {
    if k < |years| {
      var n := |years| - 1;
      assert years[..n][..k] == years[..k];
      SharesOverFailed(options, pathway, years[..n], k);
      SharesOverStops(options, pathway, years);
    } else {
      assert years[..k] == years;
    }
  }

  lemma SharesOverStops(options: seq<DeploymentOption>, pathway: seq<SimulatedYear>, years: seq<int>)
    requires |years| > 0 && SharesOver(options, pathway, years[..|years| - 1]).Err?
    ensures SharesOver(options, pathway, years) == SharesOver(options, pathway, years[..|years| - 1])
  {
  }

  /** The loop over the pathway's years, with the loop over each year's technologies. */
  method CalculateTechnologyShares(options: seq<DeploymentOption>, pathway: seq<SimulatedYear>) returns (r: Result<seq<TechShare>>)
    ensures r == TechnologyShares(options, pathway)
  {
    if |pathway| == 0 || |options| == 0 {
      return Err(KeyError);
    }
    var years := PathwayYears(pathway);
    var techShares: seq<TechShare> := [];
    for i := 0 to |years|
      invariant SharesOver(options, pathway, years[..i]) == Ok(techShares)
    {
      assert years[..i + 1][..i] == years[..i];
      var available := Available(options, years[i]);
      if |available| > 0 {
        var deploymentFraction := FractionFor(pathway, years[i]);
        if deploymentFraction.Err? {
          SharesOverFailed(options, pathway, years, i + 1);
          return Err(deploymentFraction.error);
        }
        var names := GroupNames(available);
        var rows: seq<TechShare> := [];
        for j := 0 to |names|
          invariant rows == ShareRowsFor(available, names[..j], years[i], deploymentFraction.value)
        {
          assert names[..j + 1][..j] == names[..j];
          rows := rows + [ShareFor(available, names[j], years[i], deploymentFraction.value)];
        }
        assert names[..|names|] == names;
        techShares := techShares + rows;
      }
    }
    assert years[..|years|] == years;
    return Ok(techShares);
  }
}
