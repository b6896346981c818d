/**
 * `create_macc_data_for_optimization` of the version 2 script: for every
 * target year the simulation's facility-technology matrix, cut to the
 * options that abate something at an LCOA below 10000 USD per t and sorted
 * cheapest first, as the table the yearly LP of `OptimizationV2` reads.
 */
module MaccDataV2 {
  import opened Wrappers
  import Sorting
  import SimulationModel
  import OptimizationV2

  /** The "reasonable cost threshold" (USD per t CO2). */
  const LcoaThreshold := 10000.0

  /** The row filter: positive abatement per tonne and an LCOA below the threshold (`inf < 10000` is False). */
  predicate Viable(o: SimulationModel.DeploymentOption)
  {
    o.abatementPerT > 0.0 && o.lcoa.Finite? && o.lcoa.v < LcoaThreshold
  }

  /** The viable options of one year's matrix, by ascending LCOA. */
  function ViableOptions(matrix: seq<SimulationModel.DeploymentOption>): (r: seq<SimulationModel.DeploymentOption>)
    ensures multiset(r) == multiset(SimulationModel.Where(matrix, Viable))
    ensures forall o :: o in r <==> o in matrix && Viable(o)
    ensures forall i :: 0 <= i < |r| ==> Viable(r[i])
    ensures forall i, j :: 0 <= i < j < |r| ==> r[i].lcoa.v <= r[j].lcoa.v
  {
    var kept := SimulationModel.Where(matrix, Viable);
    SimulationModel.LcoaLeTotalPreorder();
    Sorting.SortBySorted(kept, SimulationModel.LcoaLe);
    Sorting.SortByMembers(kept, SimulationModel.LcoaLe);
    var sorted := Sorting.SortBy(kept, SimulationModel.LcoaLe);
    assert forall i :: 0 <= i < |sorted| ==> sorted[i] in sorted;
    forall i, j | 0 <= i < j < |sorted|
      ensures sorted[i].lcoa.v <= sorted[j].lcoa.v
    {
      assert sorted[i] in sorted && sorted[j] in sorted;
      assert SimulationModel.LcoaLe(sorted[i], sorted[j]);
    }
    sorted
  }

  /** The columns of a matrix option that the LP reads. */
  function RowOf(o: SimulationModel.DeploymentOption): OptimizationV2.MaccOption
    requires o.lcoa.Finite?
  {
    OptimizationV2.MaccOption(o.deploymentId, o.technology, o.region, o.company, o.techGroup,
                              o.maxDeploymentKt, o.totalAbatementKt, o.abatementPerT, o.lcoa.v, o.capexMillionUsd)
  }

  /**
   * One year's table: the viable options of the matrix, cheapest first, each
   * cut to the columns the LP reads; every row abates something below the
   * threshold.
   */
  function YearTable(matrix: seq<SimulationModel.DeploymentOption>): (r: seq<OptimizationV2.MaccOption>)
    ensures |r| == |SimulationModel.Where(matrix, Viable)|
    ensures forall i :: 0 <= i < |r| ==> r[i] == RowOf(ViableOptions(matrix)[i])
    ensures forall i, j :: 0 <= i < j < |r| ==> r[i].lcoaUsdPerT <= r[j].lcoaUsdPerT
    ensures forall i :: 0 <= i < |r| ==> r[i].abatementTPerT > 0.0 && r[i].lcoaUsdPerT < LcoaThreshold
  {
    var viable := ViableOptions(matrix);
    assert |viable| == |multiset(viable)| == |SimulationModel.Where(matrix, Viable)|;
    seq(|viable|, i requires 0 <= i < |viable| => RowOf(viable[i]))
  }

  /** Every viable option of the matrix has its row in the year's table, and every row comes from one. */
  lemma YearTableRows(matrix: seq<SimulationModel.DeploymentOption>)
    ensures forall o :: o in matrix && Viable(o) ==> RowOf(o) in YearTable(matrix)
    ensures forall i :: 0 <= i < |YearTable(matrix)| ==>
              exists o :: o in matrix && Viable(o) && YearTable(matrix)[i] == RowOf(o)
  {
    var viable := ViableOptions(matrix);
    var rows := YearTable(matrix);
    assert |viable| == |multiset(viable)| == |rows|;
    forall o | o in matrix && Viable(o)
      ensures RowOf(o) in rows
    {
      var i :| 0 <= i < |viable| && viable[i] == o;
      assert rows[i] == RowOf(o);
    }
    forall i | 0 <= i < |rows|
      ensures exists o :: o in matrix && Viable(o) && rows[i] == RowOf(o)
    {
      var o := viable[i];
      assert o in viable;
      assert o in matrix && Viable(o) && rows[i] == RowOf(o);
    }
  }

  /** The sheets the script reads from the workbook. */
  datatype Workbook = Workbook(
    facilities: seq<SimulationModel.Facility>,
    techs: seq<SimulationModel.Technology>,
    bands: seq<SimulationModel.BandConsumption>,
    efs: seq<SimulationModel.FacilityV3.EmissionFactors>,
    fps: seq<SimulationModel.FuelPrices>)

  /** `create_facility_technology_matrix(..., year)` over the workbook. */
  function MatrixFor(w: Workbook, year: int): Result<seq<SimulationModel.DeploymentOption>>
  {
    SimulationModel.Matrix(w.facilities, w.techs, w.bands, w.efs, w.fps, year)
  }

  /**
   * The loop shape of the script: one entry per year from `f`, the first
   * failing year ending it with that error.
   */
  function Collect<T>(f: int -> Result<T>, years: seq<int>): Result<map<int, T>>
    decreases |years|
  {
    if |years| == 0 then Ok(map[])
    else
      var prev := Collect(f, years[..|years| - 1]);
      if prev.Err? then prev
      else
        var entry := f(years[|years| - 1]);
        if entry.Err? then Err(entry.error)
        else Ok(prev.value[years[|years| - 1] := entry.value])
  }

  /** The collection fails exactly when some year fails. */
  lemma {:induction false} CollectFails<T>(f: int -> Result<T>, years: seq<int>)
    ensures Collect(f, years).Err? <==> exists k :: 0 <= k < |years| && f(years[k]).Err?
    decreases |years|
  {
    if |years| > 0 {
      var n := |years| - 1;
      var init := years[..n];
      CollectFails(f, init);
      if Collect(f, init).Err? {
        var k :| 0 <= k < n && f(init[k]).Err?;
        assert init[k] == years[k];
      } else if f(years[n]).Ok? {
        forall k | 0 <= k < |years|
          ensures f(years[k]).Ok?
        {
          if k < n {
            assert init[k] == years[k];
          }
        }
      }
    }
  }

  /** A finished collection has one entry per listed year and no other, each the value for that year. */
  lemma {:induction false} CollectEntries<T>(f: int -> Result<T>, years: seq<int>)
    requires Collect(f, years).Ok?
    ensures forall y :: y in Collect(f, years).value <==> y in years
    ensures forall y :: y in Collect(f, years).value ==> f(y) == Ok(Collect(f, years).value[y])
    decreases |years|
  {
    if |years| > 0 {
      var n := |years| - 1;
      var init := years[..n];
      CollectEntries(f, init);
      assert years == init + [years[n]];
    }
  }

  /** A failing year ends the whole collection with its error. */
  lemma {:induction false} CollectFailed<T>(f: int -> Result<T>, years: seq<int>, k: nat)
    requires k <= |years| && Collect(f, years[..k]).Err?
    ensures Collect(f, years) == Collect(f, years[..k])
    decreases |years| - k
  {
    if k < |years| {
      assert years[..k + 1][..k] == years[..k];
      CollectFailed(f, years, k + 1);
    } else {
      assert years[..k] == years;
    }
  }

  /**
   * A year the script cannot tabulate: its matrix fails, or it is empty, and
   * the frame built from no options has no columns to filter on.
   */
  predicate YearFails(w: Workbook, year: int)
  {
    MatrixFor(w, year).Err? || |MatrixFor(w, year).value| == 0
  }

  /**
   * One year's table; the error of its matrix, or KeyError when the matrix is
   * empty (`deployment_df['AbatementPotential_tCO2_per_t']` on a column-less
   * frame).
   */
  function YearResult(w: Workbook, year: int): Result<seq<OptimizationV2.MaccOption>>
  {
    var matrix := MatrixFor(w, year);
    if matrix.Err? then Err(matrix.error)
    else if |matrix.value| == 0 then Err(KeyError)
    else Ok(YearTable(matrix.value))
  }

  /** The tables of `years`, keyed by year. */
  function MaccData(w: Workbook, years: seq<int>): Result<map<int, seq<OptimizationV2.MaccOption>>>
  {
    Collect(y => YearResult(w, y), years)
  }

  /**
   * The tables fail exactly when some year's matrix fails or is empty; the
   * first such year decides the error, KeyError for an empty matrix.
   */
  lemma MaccDataFails(w: Workbook, years: seq<int>)
    ensures MaccData(w, years).Err? <==> exists k :: 0 <= k < |years| && YearFails(w, years[k])
    ensures forall k ::
              (0 <= k < |years| && MatrixFor(w, years[k]).Ok? && |MatrixFor(w, years[k]).value| == 0 &&
               MaccData(w, years[..k]).Ok?) ==> MaccData(w, years) == Err(KeyError)
  {
    CollectFails(y => YearResult(w, y), years);
    forall k | 0 <= k < |years| && MatrixFor(w, years[k]).Ok? && |MatrixFor(w, years[k]).value| == 0 &&
               MaccData(w, years[..k]).Ok?
      ensures MaccData(w, years) == Err(KeyError)
    {
      assert years[..k + 1][..k] == years[..k];
      assert MaccData(w, years[..k + 1]) == Err(KeyError);
      CollectFailed(y => YearResult(w, y), years, k + 1);
    }
  }

  /**
   * When the tables are built there is one per listed year and no other, each
   * the table of that year's matrix, which is not empty.
   */
  lemma MaccDataTables(w: Workbook, years: seq<int>)
    requires MaccData(w, years).Ok?
    ensures forall y :: y in MaccData(w, years).value <==> y in years
    ensures forall y :: y in MaccData(w, years).value ==>
              MatrixFor(w, y).Ok? && |MatrixFor(w, y).value| > 0 &&
              MaccData(w, years).value[y] == YearTable(MatrixFor(w, y).value)
  {
    CollectEntries(y => YearResult(w, y), years);
  }

  /** The loop over the target years (2030, 2040 and 2050 by default). */
  method CreateMaccDataForOptimization(w: Workbook, years: seq<int>)
    returns (r: Result<map<int, seq<OptimizationV2.MaccOption>>>)
    ensures r == MaccData(w, years)
  {
    var macc: map<int, seq<OptimizationV2.MaccOption>> := map[];
    for i := 0 to |years|
      invariant MaccData(w, years[..i]) == Ok(macc)
    {
      assert years[..i + 1][..i] == years[..i];
      var deployment := SimulationModel.CreateFacilityTechnologyMatrix(w.facilities, w.techs, w.bands, w.efs, w.fps, years[i]);
      if deployment.Err? {
        CollectFailed(y => YearResult(w, y), years, i + 1);
        return Err(deployment.error);
      }
      if |deployment.value| == 0 {
        CollectFailed(y => YearResult(w, y), years, i + 1);
        return Err(KeyError);
      }
      macc := macc[years[i] := YearTable(deployment.value)];
    }
    assert years[..|years|] == years;
    r := Ok(macc);
  }
}
