/**
 * The business-as-usual emission pathway of the facility list: each facility's
 * annual emissions from its product's energy intensities, the yearly sum over
 * the facilities still operating (none shuts down before 2029), the
 * retirement schedule under a 25-year life and the summary percentages.
 */
module EmissionPathway {

  import opened Wrappers
  import opened Reals
  import OrderedMaps

  const FirstYear: int := 2023
  /** No facility shuts down before this year, whatever its lifetime. */
  const NoShutdownBefore: int := 2029
  /** The lifetime the retirement schedule always uses. */
  const RetirementLifetime: int := 25
  const SummaryEndYear: int := 2050

  // ------------------------------------------------------------ input rows

  /**
   * A capacity cell: a number, an empty cell or a text that does not parse as
   * a number, such as "-". A numeric text such as "120" is `Number`, since
   * `pd.to_numeric` parses it.
   */
  datatype Cell = Number(x: real) | Blank | Text(s: string)

  /** `pd.to_numeric(..., errors='coerce').fillna(0)`. */
  function Coerce(c: Cell): (r: real)
    ensures c.Number? ==> r == c.x
    ensures !c.Number? ==> r == 0.0
  {
    if c.Number? then c.x else 0.0
  }

  /** A row of the `source` sheet as read. */
  datatype RawFacility = RawFacility(company: string, location: string, product: string, process: string,
                                     year: int, capacity: Cell)

  /** A facility after the capacity column has been made numeric (kt per year). */
  datatype Facility = Facility(company: string, location: string, product: string, process: string,
                               year: int, capacityKt: real)

  function Loaded(raw: RawFacility): (f: Facility)
    ensures f.capacityKt == Coerce(raw.capacity)
    ensures (f.company, f.location, f.product, f.process, f.year) ==
            (raw.company, raw.location, raw.product, raw.process, raw.year)
  {
    Facility(raw.company, raw.location, raw.product, raw.process, raw.year, Coerce(raw.capacity))
  }

  /** Energy use per tonne: LNG, fuel gas and fuel oil in GJ/t, electricity in kWh/t. */
  datatype CiData = CiData(lng: real, electricity: real, fuelGas: real, fuelOil: real)

  /** The intensities assumed for a product the CI sheet does not list. */
  const DefaultCi: CiData := CiData(10.0, 500.0, 5.0, 2.0)

  /** A row of the `CI` sheet; `None` is a column the sheet lacks (read as 0). */
  datatype CiRow = CiRow(product: string, process: string, lng: Option<real>, electricity: Option<real>,
                         fuelGas: Option<real>, fuelOil: Option<real>)

  function CiOf(row: CiRow): CiData
  {
    CiData(row.lng.GetOr(0.0), row.electricity.GetOr(0.0), row.fuelGas.GetOr(0.0), row.fuelOil.GetOr(0.0))
  }

  /** Emission factors: t CO2 per GJ of LNG, fuel gas and fuel oil, per kWh of electricity. */
  datatype EmissionFactors = EmissionFactors(lng: real, electricity: real, fuelGas: real, fuelOil: real)

  /** A row of the `CI2` sheet; `None` is a column the sheet lacks. */
  datatype FactorRow = FactorRow(lng: Option<real>, electricity: Option<real>, fuelGas: Option<real>,
                                 fuelOil: Option<real>)

  /** The factors of the first CI2 row, each with its default; an empty sheet has no first row. */
  function FactorsOf(rows: seq<FactorRow>): (r: Result<EmissionFactors>)
    ensures r.Err? <==> |rows| == 0
    ensures r.Err? ==> r.error == IndexError
    ensures r.Ok? && rows[0].lng.None? ==> r.value.lng == 0.056
    ensures r.Ok? && rows[0].electricity.None? ==> r.value.electricity == 0.0045
    ensures r.Ok? && rows[0].fuelGas.None? ==> r.value.fuelGas == 0.056
    ensures r.Ok? && rows[0].fuelOil.None? ==> r.value.fuelOil == 0.077
    ensures r.Ok? && rows[0].lng.Some? ==> r.value.lng == rows[0].lng.value
  {
    if |rows| == 0 then Err(IndexError)
    else
      var row := rows[0];
      Ok(EmissionFactors(row.lng.GetOr(0.056), row.electricity.GetOr(0.0045), row.fuelGas.GetOr(0.056),
                         row.fuelOil.GetOr(0.077)))
  }

  // ------------------------------------------------------------ the CI map

  type CiMap = OrderedMaps.Dict<(string, string), CiData>

  function CiPairs(rows: seq<CiRow>): seq<((string, string), CiData)>
  {
    seq(|rows|, i requires 0 <= i < |rows| => ((rows[i].product, rows[i].process), CiOf(rows[i])))
  }

  /** `ci_map`: keyed by (product, process); a later row with the same key replaces an earlier one. */
  function BuildCiMap(rows: seq<CiRow>): (m: CiMap)
    ensures forall k :: OrderedMaps.Get(m, k) == OrderedMaps.LastWith(CiPairs(rows), k)
  {
    forall k ensures OrderedMaps.Get(OrderedMaps.FromPairs(CiPairs(rows)), k) == OrderedMaps.LastWith(CiPairs(rows), k) {
      OrderedMaps.FromPairsGet(CiPairs(rows), k);
    }
    OrderedMaps.FromPairs(CiPairs(rows))
  }

  /** The first key (in insertion order) whose product is `product`. */
  function FirstProductKey(keys: seq<(string, string)>, product: string): (r: Option<nat>)
    ensures r.None? <==> forall i :: 0 <= i < |keys| ==> keys[i].0 != product
    ensures r.Some? ==> r.value < |keys| && keys[r.value].0 == product &&
                        forall i :: 0 <= i < r.value ==> keys[i].0 != product
  {
    if |keys| == 0 then None
    else if keys[0].0 == product then Some(0)
    else
      var rest := FirstProductKey(keys[1..], product);
      assert forall i :: 1 <= i < |keys| ==> keys[i] == keys[1..][i - 1];
      if rest.None? then None else Some(rest.value + 1)
  }

  /**
   * The intensities a facility should use: its exact (product, process) entry,
   * else the entry of the first key with the same product, else the defaults.
   */
  function LookupCi(m: CiMap, product: string, process: string): (ci: CiData)
  {
    match OrderedMaps.Get(m, (product, process))
    case Some(c) => c
    case None =>
      match FirstProductKey(OrderedMaps.Keys(m), product)
      case Some(i) => m[i].1
      case None => DefaultCi
  }

  /** The three cases of the lookup, each against the map itself. */
  lemma {:induction false} LookupCiCases(m: CiMap, product: string, process: string)
    ensures OrderedMaps.HasKey(m, (product, process)) ==>
              Some(LookupCi(m, product, process)) == OrderedMaps.Get(m, (product, process))
    ensures !OrderedMaps.HasKey(m, (product, process)) && (exists i :: 0 <= i < |m| && m[i].0.0 == product) ==>
              exists i :: 0 <= i < |m| && m[i].0.0 == product && LookupCi(m, product, process) == m[i].1 &&
                          forall j :: 0 <= j < i ==> m[j].0.0 != product
    ensures (forall i :: 0 <= i < |m| ==> m[i].0.0 != product) ==> LookupCi(m, product, process) == DefaultCi
  {
    var keys := OrderedMaps.Keys(m);
    assert forall i :: 0 <= i < |m| ==> keys[i] == m[i].0;
    if forall i :: 0 <= i < |m| ==> m[i].0.0 != product {
      assert (product, process) !in keys;
    }
  }

  // ------------------------------------------------------------ emissions

  /** A row of the facility emissions table (kt CO2 per year, t CO2 per t). */
  datatype EmissionRow = EmissionRow(company: string, location: string, product: string, process: string,
                                     startYear: int, capacityKt: real, annualEmissionsKt: real, intensity: real)

  /** LNG, electricity, fuel-gas and fuel-oil emissions at full utilisation of `capacityKt`. */
  function TotalEmissionsKt(ci: CiData, ef: EmissionFactors, capacityKt: real): real
  {
    ci.lng * capacityKt * ef.lng + ci.electricity * capacityKt * ef.electricity +
    ci.fuelGas * capacityKt * ef.fuelGas + ci.fuelOil * capacityKt * ef.fuelOil
  }

  /** The per-tonne intensity, the same for every capacity. */
  function IntensityPerTonne(ci: CiData, ef: EmissionFactors): real
  {
    ci.lng * ef.lng + ci.electricity * ef.electricity + ci.fuelGas * ef.fuelGas + ci.fuelOil * ef.fuelOil
  }

  function EmissionRowOf(f: Facility, ci: CiData, ef: EmissionFactors): EmissionRow
  {
    var total := TotalEmissionsKt(ci, ef, f.capacityKt);
    EmissionRow(f.company, f.location, f.product, f.process, f.year, f.capacityKt, total,
                if f.capacityKt > 0.0 then total / f.capacityKt else 0.0)
  }

  /**
   * The emissions are capacity times the per-tonne intensity, and the
   * reported intensity is that per-tonne value whenever the capacity is
   * positive.
   */
  lemma {:induction false} EmissionRowScales(f: Facility, ci: CiData, ef: EmissionFactors)
    ensures EmissionRowOf(f, ci, ef).annualEmissionsKt == f.capacityKt * IntensityPerTonne(ci, ef)
    ensures f.capacityKt > 0.0 ==> EmissionRowOf(f, ci, ef).intensity == IntensityPerTonne(ci, ef)
    ensures f.capacityKt <= 0.0 ==> EmissionRowOf(f, ci, ef).intensity == 0.0
  {
    var total := TotalEmissionsKt(ci, ef, f.capacityKt);
    var i := IntensityPerTonne(ci, ef);
    assert total == f.capacityKt * i;
    if f.capacityKt > 0.0 {
      assert total / f.capacityKt == i;
    }
  }

  /** The row of a facility under the intended lookup. */
  function RowFor(m: CiMap, ef: EmissionFactors, f: Facility): EmissionRow
  {
    EmissionRowOf(f, LookupCi(m, f.product, f.process), ef)
  }

  /** `calculate_current_emissions` with every facility using its own CI entry; zero capacities are skipped. */
  function CurrentEmissions(m: CiMap, ef: EmissionFactors, fs: seq<Facility>): seq<EmissionRow>
  {
    if |fs| == 0 then []
    else
      var f := fs[|fs| - 1];
      CurrentEmissions(m, ef, fs[..|fs| - 1]) + (if f.capacityKt == 0.0 then [] else [RowFor(m, ef, f)])
  }

  /** The table holds a row for each facility of non-zero capacity, in order, and nothing else. */
  lemma {:induction false} CurrentEmissionsRows(m: CiMap, ef: EmissionFactors, fs: seq<Facility>)
    ensures |CurrentEmissions(m, ef, fs)| <= |fs|
    ensures forall r :: r in CurrentEmissions(m, ef, fs) <==>
                        exists f :: f in fs && f.capacityKt != 0.0 && r == RowFor(m, ef, f)
    ensures (forall f :: f in fs ==> f.capacityKt != 0.0) ==> |CurrentEmissions(m, ef, fs)| == |fs|
  {
    if |fs| > 0 {
      var init := fs[..|fs| - 1];
      assert forall f :: f in fs <==> f in init || f == fs[|fs| - 1];
      CurrentEmissionsRows(m, ef, init);
    }
  }

  /** The loop state of the source: the rows so far and the last `ci_data` bound (`None` before any). */
  datatype Pass = Pass(rows: seq<EmissionRow>, ciData: Option<CiData>)

  /**
   * The lookup as written: on the product-only fallback only the key is
   * changed and `ci_data` keeps the previous facility's value.
   */
  function LookupAsWritten(m: CiMap, product: string, process: string, previous: Option<CiData>): Option<CiData>
  {
    match OrderedMaps.Get(m, (product, process))
    case Some(c) => Some(c)
    case None =>
      if FirstProductKey(OrderedMaps.Keys(m), product).Some? then previous else Some(DefaultCi)
  }

  /** `calculate_current_emissions` as written; reading `ci_data` before any assignment is a NameError. */
  function CurrentEmissionsAsWritten(m: CiMap, ef: EmissionFactors, fs: seq<Facility>): Result<Pass>
  {
    if |fs| == 0 then Ok(Pass([], None))
    else
      match CurrentEmissionsAsWritten(m, ef, fs[..|fs| - 1])
      case Err(e) => Err(e)
      case Ok(p) =>
        var f := fs[|fs| - 1];
        if f.capacityKt == 0.0 then Ok(p)
        else
          var ci := LookupAsWritten(m, f.product, f.process, p.ciData);
          if ci.None? then Err(NameError)
          else Ok(Pass(p.rows + [EmissionRowOf(f, ci.value, ef)], ci))
  }

  /** A facility whose exact key is listed, or whose product is not listed at all. */
  predicate LookupUnambiguous(m: CiMap, f: Facility)
  {
    OrderedMaps.HasKey(m, (f.product, f.process)) || FirstProductKey(OrderedMaps.Keys(m), f.product).None?
  }

  /** Without a product-only fallback, the code as written computes the intended table. */
  lemma {:induction false} AsWrittenAgreesWithoutFallback(m: CiMap, ef: EmissionFactors, fs: seq<Facility>)
    requires forall f :: f in fs ==> LookupUnambiguous(m, f)
    ensures CurrentEmissionsAsWritten(m, ef, fs).Ok?
    ensures CurrentEmissionsAsWritten(m, ef, fs).value.rows == CurrentEmissions(m, ef, fs)
  {
    if |fs| > 0 {
      var init := fs[..|fs| - 1];
      assert forall f :: f in init ==> f in fs;
      AsWrittenAgreesWithoutFallback(m, ef, init);
      var f := fs[|fs| - 1];
      assert f in fs;
    }
  }

  /**
   * The stale lookup: a polyethylene facility with an exact entry followed by a
   * polypropylene facility of an unlisted process. The second row is computed
   * with the polyethylene intensities instead of the polypropylene entry.
   */
  lemma {:induction false} StaleCiCounterexample()
    ensures var m: CiMap := [(("PE", "LDPE"), CiData(1.0, 0.0, 0.0, 0.0)), (("PP", "Bulk"), CiData(2.0, 0.0, 0.0, 0.0))];
            var ef := EmissionFactors(1.0, 0.0, 0.0, 0.0);
            var fs := [Facility("A", "Ulsan", "PE", "LDPE", 1990, 1.0), Facility("B", "Yeosu", "PP", "Gas", 1995, 1.0)];
            CurrentEmissionsAsWritten(m, ef, fs).Ok? &&
            CurrentEmissionsAsWritten(m, ef, fs).value.rows[1].annualEmissionsKt == 1.0 &&
            CurrentEmissions(m, ef, fs)[1].annualEmissionsKt == 2.0
  {
    var m: CiMap := [(("PE", "LDPE"), CiData(1.0, 0.0, 0.0, 0.0)), (("PP", "Bulk"), CiData(2.0, 0.0, 0.0, 0.0))];
    var fs := [Facility("A", "Ulsan", "PE", "LDPE", 1990, 1.0), Facility("B", "Yeosu", "PP", "Gas", 1995, 1.0)];
    assert OrderedMaps.Keys(m) == [("PE", "LDPE"), ("PP", "Bulk")];
    assert fs[..1] == [fs[0]] && fs[..1][..0] == [];
    assert ("PP", "Gas") != ("PE", "LDPE") && ("PP", "Gas") != ("PP", "Bulk");
    assert OrderedMaps.Get(m, ("PP", "Gas")) == None;
    assert FirstProductKey(OrderedMaps.Keys(m), "PP") == Some(1);
  }

  /** A first facility that needs the product-only fallback reads an unbound `ci_data`. */
  lemma {:induction false} UnboundCiCounterexample()
    ensures var m: CiMap := [(("PP", "Bulk"), CiData(2.0, 0.0, 0.0, 0.0))];
            var fs := [Facility("B", "Yeosu", "PP", "Gas", 1995, 1.0)];
            CurrentEmissionsAsWritten(m, EmissionFactors(1.0, 0.0, 0.0, 0.0), fs) == Err(NameError) &&
            |CurrentEmissions(m, EmissionFactors(1.0, 0.0, 0.0, 0.0), fs)| == 1
  {
    var m: CiMap := [(("PP", "Bulk"), CiData(2.0, 0.0, 0.0, 0.0))];
    var fs := [Facility("B", "Yeosu", "PP", "Gas", 1995, 1.0)];
    assert fs[..0] == [];
    assert OrderedMaps.Keys(m) == [("PP", "Bulk")];
    assert ("PP", "Gas") != ("PP", "Bulk");
    assert OrderedMaps.Get(m, ("PP", "Gas")) == None;
  }

  // ------------------------------------------------------------ the pathway

  function IntMax(a: int, b: int): int { if a >= b then a else b }

  /** A facility operates in `year` from its start until `max(start + lifetime, 2029)`, exclusive. */
  predicate Active(start: int, lifetime: int, year: int)
  {
    start <= year < IntMax(start + lifetime, NoShutdownBefore)
  }

  /** Operating means started and either within the lifetime or before 2029. */
  lemma {:induction false} ActiveIff(start: int, lifetime: int, year: int)
    ensures Active(start, lifetime, year) <==> start <= year && (year < start + lifetime || year < NoShutdownBefore)
  {
  }

  /** Summed emissions (kt) of the facilities operating in `year`. */
  function AnnualKt(rows: seq<EmissionRow>, lifetime: int, year: int): real
  {
    if |rows| == 0 then 0.0
    else
      var r := rows[|rows| - 1];
      AnnualKt(rows[..|rows| - 1], lifetime, year) + (if Active(r.startYear, lifetime, year) then r.annualEmissionsKt else 0.0)
  }

  /** The number of facilities operating in `year`. */
  function ActiveCount(rows: seq<EmissionRow>, lifetime: int, year: int): (n: nat)
    ensures n <= |rows|
  {
    if |rows| == 0 then 0
    else ActiveCount(rows[..|rows| - 1], lifetime, year) + (if Active(rows[|rows| - 1].startYear, lifetime, year) then 1 else 0)
  }

  datatype PathwayRow = PathwayRow(year: int, emissionsMt: real, activeFacilities: nat)

  function YearCount(endYear: int): nat
  {
    if endYear >= FirstYear then endYear - FirstYear + 1 else 0
  }

  /** One row per year from 2023 to `endYear`: emissions in Mt and the operating facilities. */
  function BauPathway(rows: seq<EmissionRow>, lifetime: int, endYear: int): (p: seq<PathwayRow>)
    ensures |p| == YearCount(endYear)
    ensures forall k :: 0 <= k < |p| ==> p[k].year == FirstYear + k
  {
    seq(YearCount(endYear), k requires 0 <= k =>
      PathwayRow(FirstYear + k, AnnualKt(rows, lifetime, FirstYear + k) / 1000.0, ActiveCount(rows, lifetime, FirstYear + k)))
  }

  /** Before 2029 every lifetime gives the same emissions and the same count. */
  lemma {:induction false} SamePathwayBefore2029(rows: seq<EmissionRow>, l1: int, l2: int, year: int)
    requires year < NoShutdownBefore
    ensures AnnualKt(rows, l1, year) == AnnualKt(rows, l2, year)
    ensures ActiveCount(rows, l1, year) == ActiveCount(rows, l2, year)
  {
    if |rows| > 0 {
      SamePathwayBefore2029(rows[..|rows| - 1], l1, l2, year);
    }
  }

  /** A longer lifetime never lowers the emissions or the count of a year. */
  lemma {:induction false} LongerLifetimeNoLower(rows: seq<EmissionRow>, l1: int, l2: int, year: int)
    requires l1 <= l2
    requires forall i :: 0 <= i < |rows| ==> rows[i].annualEmissionsKt >= 0.0
    ensures AnnualKt(rows, l1, year) <= AnnualKt(rows, l2, year)
    ensures ActiveCount(rows, l1, year) <= ActiveCount(rows, l2, year)
  {
    if |rows| > 0 {
      var init := rows[..|rows| - 1];
      assert forall i :: 0 <= i < |init| ==> init[i] == rows[i];
      LongerLifetimeNoLower(init, l1, l2, year);
    }
  }

  /** With non-negative rows a year's emissions lie between 0 and the sum of all rows. */
  lemma {:induction false} AnnualKtBounds(rows: seq<EmissionRow>, lifetime: int, year: int)
    requires forall i :: 0 <= i < |rows| ==> rows[i].annualEmissionsKt >= 0.0
    ensures 0.0 <= AnnualKt(rows, lifetime, year)
    ensures AnnualKt(rows, lifetime, year) <= AllEmissionsKt(rows)
  {
    if |rows| > 0 {
      var init := rows[..|rows| - 1];
      assert forall i :: 0 <= i < |init| ==> init[i] == rows[i];
      AnnualKtBounds(init, lifetime, year);
    }
  }

  function AllEmissionsKt(rows: seq<EmissionRow>): real
  {
    if |rows| == 0 then 0.0 else AllEmissionsKt(rows[..|rows| - 1]) + rows[|rows| - 1].annualEmissionsKt
  }

  /** The nested loops of `create_bau_pathway`: a yearly accumulator, then one row per year. */
  method BuildPathway(rows: seq<EmissionRow>, lifetime: int, endYear: int) returns (p: seq<PathwayRow>)
    ensures p == BauPathway(rows, lifetime, endYear)
  {
    var n := YearCount(endYear);
    var annual: seq<real> := seq(n, k => 0.0);
    var i := 0;
    while i < |rows|
      invariant 0 <= i <= |rows| && |annual| == n
      invariant forall k :: 0 <= k < n ==> annual[k] == AnnualKt(rows[..i], lifetime, FirstYear + k)
    {
      assert rows[..i + 1][..i] == rows[..i];
      var start := rows[i].startYear;
      var actualEnd := IntMax(start + lifetime, NoShutdownBefore);
      var k := 0;
      while k < n
        invariant 0 <= k <= n && |annual| == n
        invariant forall j :: 0 <= j < k ==> annual[j] == AnnualKt(rows[..i + 1], lifetime, FirstYear + j)
        invariant forall j :: k <= j < n ==> annual[j] == AnnualKt(rows[..i], lifetime, FirstYear + j)
      {
        var year := FirstYear + k;
        if start <= year < actualEnd {
          annual := annual[k := annual[k] + rows[i].annualEmissionsKt];
        }
        k := k + 1;
      }
      i := i + 1;
    }
    assert rows[..i] == rows;
    p := [];
    var k := 0;
    while k < n
      invariant 0 <= k <= n
      invariant p == BauPathway(rows, lifetime, endYear)[..k]
    {
      var year := FirstYear + k;
      p := p + [PathwayRow(year, annual[k] / 1000.0, ActiveCount(rows, lifetime, year))];
      k := k + 1;
    }
  }

  // ------------------------------------------------------------ retirement

  datatype RetirementRow = RetirementRow(company: string, product: string, startYear: int, retirementYear: int,
                                         capacityKt: real, annualEmissionsKt: real)

  /** `analyze_facility_retirement`: every facility retires 25 years after it starts. */
  function RetirementSchedule(rows: seq<EmissionRow>): (s: seq<RetirementRow>)
    ensures |s| == |rows|
    ensures forall i :: 0 <= i < |rows| ==> s[i].retirementYear == rows[i].startYear + RetirementLifetime &&
                                            s[i].startYear == rows[i].startYear &&
                                            s[i].capacityKt == rows[i].capacityKt &&
                                            s[i].annualEmissionsKt == rows[i].annualEmissionsKt
  {
    seq(|rows|, i requires 0 <= i < |rows| =>
      RetirementRow(rows[i].company, rows[i].product, rows[i].startYear, rows[i].startYear + RetirementLifetime,
                    rows[i].capacityKt, rows[i].annualEmissionsKt))
  }

  /**
   * Under the 25-year pathway a facility retiring in 2029 or later operates
   * exactly from its start until its retirement year; one due earlier keeps
   * operating until 2029 all the same.
   */
  lemma {:induction false} RetirementMatchesPathway(rows: seq<EmissionRow>, i: nat, year: int)
    requires i < |rows|
    ensures var r := RetirementSchedule(rows)[i];
            (r.retirementYear >= NoShutdownBefore ==>
              (Active(r.startYear, RetirementLifetime, year) <==> r.startYear <= year < r.retirementYear)) &&
            (r.retirementYear < NoShutdownBefore ==>
              (Active(r.startYear, RetirementLifetime, year) <==> r.startYear <= year < NoShutdownBefore))
  {
  }

  /** The aggregated retirements of one year. */
  datatype RetirementGroup = RetirementGroup(capacityKt: real, annualEmissionsKt: real, facilitiesRetiring: nat)

  /** The `groupby('retirement_year')` row of `year`: summed capacity, emissions and the count. */
  function RetiringIn(s: seq<RetirementRow>, year: int): (g: RetirementGroup)
    ensures g.facilitiesRetiring <= |s|
  {
    if |s| == 0 then RetirementGroup(0.0, 0.0, 0)
    else
      var g := RetiringIn(s[..|s| - 1], year);
      var r := s[|s| - 1];
      if r.retirementYear == year
      then RetirementGroup(g.capacityKt + r.capacityKt, g.annualEmissionsKt + r.annualEmissionsKt, g.facilitiesRetiring + 1)
      else g
  }

  /** A year has a group row exactly when some facility retires in it. */
  lemma {:induction false} RetiringInCount(s: seq<RetirementRow>, year: int)
    ensures RetiringIn(s, year).facilitiesRetiring > 0 <==> exists i :: 0 <= i < |s| && s[i].retirementYear == year
    ensures RetiringIn(s, year).facilitiesRetiring == 0 ==> RetiringIn(s, year) == RetirementGroup(0.0, 0.0, 0)
  {
    if |s| > 0 {
      var init := s[..|s| - 1];
      assert forall i :: 0 <= i < |init| ==> init[i] == s[i];
      RetiringInCount(init, year);
    }
  }

  // ------------------------------------------------------------ summary

  /** `(1 - e2050 / current) * 100`, or 0 when the current emissions are not positive. */
  function NaturalReductionPct(current: real, e2050: real): real
  {
    if current > 0.0 then (1.0 - e2050 / current) * 100.0 else 0.0
  }

  /** The reduction is a percentage whenever 2050 emits between nothing and today's emissions. */
  lemma {:induction false} NaturalReductionRange(current: real, e2050: real)
    ensures current <= 0.0 ==> NaturalReductionPct(current, e2050) == 0.0
    ensures current > 0.0 && 0.0 <= e2050 <= current ==> 0.0 <= NaturalReductionPct(current, e2050) <= 100.0
    ensures current > 0.0 && e2050 == current ==> NaturalReductionPct(current, e2050) == 0.0
    ensures current > 0.0 && e2050 == 0.0 ==> NaturalReductionPct(current, e2050) == 100.0
  {
    if current > 0.0 && 0.0 <= e2050 <= current {
      QuotientBetween(e2050, 0.0, 1.0, current);
    }
  }

  /** More emissions in 2050 never mean a larger natural reduction. */
  lemma {:induction false} NaturalReductionAntitone(current: real, a: real, b: real)
    requires a <= b
    ensures NaturalReductionPct(current, b) <= NaturalReductionPct(current, a)
  {
    if current > 0.0 {
      assert b / current - a / current == (b - a) / current;
    }
  }

  /** The first row of `year`, as `df[df['year'] == year].iloc[0]` picks it. */
  function FindYear(p: seq<PathwayRow>, year: int): (r: Option<nat>)
    ensures r.None? <==> forall i :: 0 <= i < |p| ==> p[i].year != year
    ensures r.Some? ==> r.value < |p| && p[r.value].year == year && forall i :: 0 <= i < r.value ==> p[i].year != year
  {
    if |p| == 0 then None
    else if p[0].year == year then Some(0)
    else
      var rest := FindYear(p[1..], year);
      assert forall i :: 1 <= i < |p| ==> p[i] == p[1..][i - 1];
      if rest.None? then None else Some(rest.value + 1)
  }

  /** `idxmax`: the first row of maximum emissions. */
  function PeakIndex(p: seq<PathwayRow>): (k: nat)
    requires |p| > 0
    ensures k < |p|
    ensures forall i :: 0 <= i < |p| ==> p[i].emissionsMt <= p[k].emissionsMt
    ensures forall i :: 0 <= i < k ==> p[i].emissionsMt < p[k].emissionsMt
  {
    if |p| == 1 then 0
    else
      var k := PeakIndex(p[..|p| - 1]);
      assert forall i :: 0 <= i < |p| - 1 ==> p[..|p| - 1][i] == p[i];
      if p[|p| - 1].emissionsMt > p[k].emissionsMt then |p| - 1 else k
  }

  datatype ScenarioStats = ScenarioStats(peakYear: int, peakEmissionsMt: real, emissions2050Mt: real,
                                         naturalReduction2050Pct: real)

  datatype Summary = Summary(currentEmissionsMt: real, currentActiveFacilities: nat,
                             scenario25: ScenarioStats, scenario30: ScenarioStats)

  /**
   * One scenario's statistics. A pathway frame built from no rows has no
   * columns to read (KeyError); a missing 2050 row has no first row
   * (IndexError).
   */
  function ScenarioStatsOf(p: seq<PathwayRow>, current: real): (r: Result<ScenarioStats>)
    ensures r.Err? <==> |p| == 0 || FindYear(p, SummaryEndYear).None?
    ensures |p| == 0 ==> r == Err(KeyError)
    ensures |p| > 0 && FindYear(p, SummaryEndYear).None? ==> r == Err(IndexError)
    ensures r.Ok? ==> exists i :: 0 <= i < |p| && p[i].year == r.value.peakYear && p[i].emissionsMt == r.value.peakEmissionsMt &&
                        forall j :: 0 <= j < i ==> p[j].emissionsMt < r.value.peakEmissionsMt
    ensures r.Ok? ==> forall i :: 0 <= i < |p| ==> p[i].emissionsMt <= r.value.peakEmissionsMt
    ensures r.Ok? ==> exists i :: 0 <= i < |p| && p[i].year == SummaryEndYear && p[i].emissionsMt == r.value.emissions2050Mt &&
                        forall j :: 0 <= j < i ==> p[j].year != SummaryEndYear
    ensures r.Ok? ==> r.value.naturalReduction2050Pct == NaturalReductionPct(current, r.value.emissions2050Mt)
  {
    if |p| == 0 then Err(KeyError)
    else
      var k := PeakIndex(p);
      match FindYear(p, SummaryEndYear)
      case None => Err(IndexError)
      case Some(j) =>
        Ok(ScenarioStats(p[k].year, p[k].emissionsMt, p[j].emissionsMt, NaturalReductionPct(current, p[j].emissionsMt)))
  }

  /**
   * The figures `generate_summary_statistics` reads off the two pathways: an
   * empty 25-year frame has no columns (KeyError), one without a 2023 row has
   * no current figures (IndexError).
   */
  function SummaryOf(p25: seq<PathwayRow>, p30: seq<PathwayRow>): (r: Result<Summary>)
    ensures |p25| == 0 ==> r == Err(KeyError)
    ensures |p25| > 0 && FindYear(p25, FirstYear).None? ==> r == Err(IndexError)
    ensures r.Ok? ==> var i := FindYear(p25, FirstYear).value;
                      r.value.currentEmissionsMt == p25[i].emissionsMt &&
                      r.value.currentActiveFacilities == p25[i].activeFacilities &&
                      Ok(r.value.scenario25) == ScenarioStatsOf(p25, r.value.currentEmissionsMt) &&
                      Ok(r.value.scenario30) == ScenarioStatsOf(p30, r.value.currentEmissionsMt)
  {
    if |p25| == 0 then Err(KeyError)
    else
      match FindYear(p25, FirstYear)
      case None => Err(IndexError)
      case Some(i) =>
        var current := p25[i].emissionsMt;
        match ScenarioStatsOf(p25, current)
        case Err(e) => Err(e)
        case Ok(s25) =>
          match ScenarioStatsOf(p30, current)
          case Err(e) => Err(e)
          case Ok(s30) => Ok(Summary(current, p25[i].activeFacilities, s25, s30))
  }

  /**
   * `generate_summary_statistics` as a whole: the pathway figures, then the
   * product breakdown, which groups the emissions table by product and so
   * raises KeyError for a table built from no rows.
   */
  function SummaryStatistics(p25: seq<PathwayRow>, p30: seq<PathwayRow>, rows: seq<EmissionRow>): (r: Result<Summary>)
    ensures r.Err? <==> SummaryOf(p25, p30).Err? || |rows| == 0
    ensures SummaryOf(p25, p30).Ok? && |rows| == 0 ==> r == Err(KeyError)
    ensures r.Ok? ==> r == SummaryOf(p25, p30)
  {
    var s := SummaryOf(p25, p30);
    if s.Err? then s
    else if |rows| == 0 then Err(KeyError)
    else s
  }

  lemma {:induction false} FindYearInPathway(rows: seq<EmissionRow>, lifetime: int, endYear: int, year: int)
    requires FirstYear <= year <= endYear
    ensures FindYear(BauPathway(rows, lifetime, endYear), year) == Some(year - FirstYear)
  {
    var p := BauPathway(rows, lifetime, endYear);
    assert p[year - FirstYear].year == year;
  }

  /**
   * The summary of the two pathways to 2050: it exists, the current figures
   * are the 2023 ones, and the 30-year scenario keeps at least the 25-year
   * scenario's 2050 emissions, so its natural reduction is never larger.
   */
  lemma {:induction false} FreshSummary(rows: seq<EmissionRow>)
    requires forall i :: 0 <= i < |rows| ==> rows[i].annualEmissionsKt >= 0.0
    ensures var s := SummaryOf(BauPathway(rows, 25, SummaryEndYear), BauPathway(rows, 30, SummaryEndYear));
            s.Ok? &&
            s.value.currentEmissionsMt == AnnualKt(rows, 25, FirstYear) / 1000.0 &&
            s.value.currentActiveFacilities == ActiveCount(rows, 25, FirstYear) &&
            s.value.scenario25.emissions2050Mt <= s.value.scenario30.emissions2050Mt &&
            s.value.scenario30.naturalReduction2050Pct <= s.value.scenario25.naturalReduction2050Pct
  {
    var p25 := BauPathway(rows, 25, SummaryEndYear);
    var p30 := BauPathway(rows, 30, SummaryEndYear);
    FindYearInPathway(rows, 25, SummaryEndYear, FirstYear);
    FindYearInPathway(rows, 25, SummaryEndYear, SummaryEndYear);
    FindYearInPathway(rows, 30, SummaryEndYear, SummaryEndYear);
    LongerLifetimeNoLower(rows, 25, 30, SummaryEndYear);
    var current := p25[0].emissionsMt;
    var a := p25[SummaryEndYear - FirstYear].emissionsMt;
    var b := p30[SummaryEndYear - FirstYear].emissionsMt;
    assert a <= b;
    NaturalReductionAntitone(current, a, b);
  }

  /** For fresh pathways to 2050 the summary fails only for an empty emissions table, with KeyError. */
  lemma {:induction false} FreshSummaryStatistics(rows: seq<EmissionRow>)
    ensures var s := SummaryStatistics(BauPathway(rows, 25, SummaryEndYear), BauPathway(rows, 30, SummaryEndYear), rows);
            (s.Err? <==> |rows| == 0) && (s.Err? ==> s.error == KeyError)
  {
    FindYearInPathway(rows, 25, SummaryEndYear, FirstYear);
    FindYearInPathway(rows, 25, SummaryEndYear, SummaryEndYear);
    FindYearInPathway(rows, 30, SummaryEndYear, SummaryEndYear);
  }

  // ------------------------------------------------------------ the analyzer

  class EmissionPathwayAnalyzer {
    const facilities: seq<Facility>
    const ciRows: seq<CiRow>
    const factorRows: seq<FactorRow>
    /** `None` until `calculate_current_emissions` has set the attribute. */
    var emissions: Option<seq<EmissionRow>>
    var pathway25: Option<seq<PathwayRow>>
    var pathway30: Option<seq<PathwayRow>>

    /** A cached pathway was built from an emissions table. */
    ghost predicate Valid()
      reads this
    {
      (pathway25.Some? || pathway30.Some?) ==> emissions.Some?
    }

    /** `load_data`: the sheets as read, with non-numeric capacities made 0. */
    constructor (raw: seq<RawFacility>, ciRows: seq<CiRow>, factorRows: seq<FactorRow>)
      ensures Valid()
      ensures |facilities| == |raw| && forall i :: 0 <= i < |raw| ==> facilities[i] == Loaded(raw[i])
      ensures this.ciRows == ciRows && this.factorRows == factorRows
      ensures emissions.None? && pathway25.None? && pathway30.None?
    {
      facilities := seq(|raw|, i requires 0 <= i < |raw| => Loaded(raw[i]));
      this.ciRows := ciRows;
      this.factorRows := factorRows;
      emissions := None;
      pathway25 := None;
      pathway30 := None;
    }

    /**
     * `calculate_current_emissions`, with the product-only fallback using the
     * matched entry (see CurrentEmissionsAsWritten for the code as written).
     * An empty CI2 sheet has no first row.
     */
    method CalculateCurrentEmissions() returns (r: Result<seq<EmissionRow>>)
      requires Valid()
      modifies this
      ensures Valid()
      ensures r.Err? <==> |factorRows| == 0
      ensures r.Err? ==> r.error == IndexError && emissions == old(emissions)
      ensures r.Ok? ==> r.value == CurrentEmissions(BuildCiMap(ciRows), FactorsOf(factorRows).value, facilities) &&
                        emissions == Some(r.value)
      ensures pathway25 == old(pathway25) && pathway30 == old(pathway30)
    {
      var ciMap: CiMap := [];
      var pairs := CiPairs(ciRows);
      var i := 0;
      while i < |ciRows|
        invariant 0 <= i <= |ciRows|
        invariant ciMap == OrderedMaps.FromPairs(pairs[..i])
      {
        assert pairs[..i + 1][..i] == pairs[..i];
        ciMap := OrderedMaps.Put(ciMap, (ciRows[i].product, ciRows[i].process), CiOf(ciRows[i]));
        i := i + 1;
      }
      assert pairs[..i] == pairs;
      var factors := FactorsOf(factorRows);
      if factors.Err? {
        return Err(factors.error);
      }
      var ef := factors.value;
      var rows: seq<EmissionRow> := [];
      i := 0;
      while i < |facilities|
        invariant 0 <= i <= |facilities|
        invariant rows == CurrentEmissions(ciMap, ef, facilities[..i])
      {
        assert facilities[..i + 1][..i] == facilities[..i];
        var f := facilities[i];
        if f.capacityKt != 0.0 {
          var ci := LookupCi(ciMap, f.product, f.process);
          rows := rows + [EmissionRowOf(f, ci, ef)];
        }
        i := i + 1;
      }
      assert facilities[..i] == facilities;
      emissions := Some(rows);
      r := Ok(rows);
    }

    /**
     * `create_bau_pathway`: the attribute the lazy check reads is never set
     * before `calculate_current_emissions`, so the check raises
     * AttributeError. Only the 25- and 30-year pathways are cached.
     */
    method CreateBauPathway(lifetime: int, endYear: int) returns (r: Result<seq<PathwayRow>>)
      requires Valid()
      modifies this
      ensures Valid()
      ensures r.Err? <==> emissions.None?
      ensures r.Err? ==> r.error == AttributeError
      ensures emissions == old(emissions)
      ensures r.Ok? ==> r.value == BauPathway(emissions.value, lifetime, endYear)
      ensures pathway25 == if r.Ok? && lifetime == 25 then Some(r.value) else old(pathway25)
      ensures pathway30 == if r.Ok? && lifetime == 30 then Some(r.value) else old(pathway30)
    {
      if emissions.None? {
        return Err(AttributeError);
      }
      var p := BuildPathway(emissions.value, lifetime, endYear);
      if lifetime == 25 {
        pathway25 := Some(p);
      } else if lifetime == 30 {
        pathway30 := Some(p);
      }
      r := Ok(p);
    }

    /** `create_both_pathways`. */
    method CreateBothPathways(endYear: int) returns (r: Result<(seq<PathwayRow>, seq<PathwayRow>)>)
      requires Valid()
      modifies this
      ensures Valid()
      ensures r.Err? <==> emissions.None?
      ensures r.Err? ==> r.error == AttributeError && pathway25 == old(pathway25) && pathway30 == old(pathway30)
      ensures emissions == old(emissions)
      ensures r.Ok? ==> r.value == (BauPathway(emissions.value, 25, endYear), BauPathway(emissions.value, 30, endYear)) &&
                        pathway25 == Some(r.value.0) && pathway30 == Some(r.value.1)
    {
      var p25 := CreateBauPathway(25, endYear);
      if p25.Err? {
        return Err(p25.error);
      }
      var p30 := CreateBauPathway(30, endYear);
      r := Ok((p25.value, p30.value));
    }

    /**
     * The retirement table of `analyze_facility_retirement`. An empty table has
     * no `retirement_year` column to group by (KeyError).
     */
    method AnalyzeFacilityRetirement() returns (r: Result<seq<RetirementRow>>)
      ensures r.Err? <==> emissions.None? || |emissions.value| == 0
      ensures emissions.None? ==> r == Err(AttributeError)
      ensures emissions.Some? && |emissions.value| == 0 ==> r == Err(KeyError)
      ensures r.Ok? ==> r.value == RetirementSchedule(emissions.value)
    {
      if emissions.None? {
        return Err(AttributeError);
      }
      var rows := emissions.value;
      var schedule: seq<RetirementRow> := [];
      var i := 0;
      while i < |rows|
        invariant 0 <= i <= |rows|
        invariant schedule == RetirementSchedule(rows)[..i]
      {
        var f := rows[i];
        schedule := schedule + [RetirementRow(f.company, f.product, f.startYear, f.startYear + RetirementLifetime,
                                              f.capacityKt, f.annualEmissionsKt)];
        i := i + 1;
      }
      if |schedule| == 0 {
        return Err(KeyError);
      }
      r := Ok(schedule);
    }

    /**
     * `generate_summary_statistics`: builds both pathways to 2050 unless both
     * are cached; the product breakdown's values are not modelled, only its
     * KeyError on an empty emissions table.
     */
    method GenerateSummaryStatistics() returns (r: Result<Summary>)
      requires Valid()
      modifies this
      ensures Valid()
      ensures emissions == old(emissions)
      ensures old(pathway25).Some? && old(pathway30).Some? ==>
                pathway25 == old(pathway25) && pathway30 == old(pathway30) &&
                r == SummaryStatistics(pathway25.value, pathway30.value, emissions.value)
      ensures (old(pathway25).None? || old(pathway30).None?) && emissions.None? ==> r == Err(AttributeError)
      ensures (old(pathway25).None? || old(pathway30).None?) && emissions.Some? ==>
                r == SummaryStatistics(BauPathway(emissions.value, 25, SummaryEndYear), BauPathway(emissions.value, 30, SummaryEndYear), emissions.value)
    {
      if pathway25.None? || pathway30.None? {
        var both := CreateBothPathways(SummaryEndYear);
        if both.Err? {
          return Err(both.error);
        }
      }
      var summary := SummaryOf(pathway25.value, pathway30.value);
      if summary.Err? {
        return summary;
      }
      if |emissions.value| == 0 {
        return Err(KeyError);
      }
      r := summary;
    }
  }
}
