/**
 * The loop both LP builders use to fill their per-(technology, year)
 * parameter dicts: for every technology of the portfolio dict and every
 * timeline year, one cell computed from the technology and the year, or the
 * first failure.
 */
module TechTables {

  import opened Wrappers
  import opened Vintage
  import OrderedMaps
  import Technology
  import Scenario
  import Portfolio

  type Techs = OrderedMaps.Dict<string, Technology.Technology>

  /**
   * The capacity a technology may deploy (`_calculate_max_capacity` of the
   * corrected builder, the activity of the original one): 0 for a process
   * missing from the baseline, otherwise the capacity the technology acts on
   * (its source band or its whole process) times its maximum applicability.
   * A transition without a source band fails on `from_band.value`.
   */
  function MaxCapacity(b: Scenario.EmissionsBaseline, t: Technology.Technology): (r: Result<real>)
    ensures !OrderedMaps.HasKey(b.processBaselines, t.processType) ==> r == Ok(0.0)
    ensures r.Err? <==> OrderedMaps.HasKey(b.processBaselines, t.processType) &&
                        t.techType == Technology.Transition && t.fromBand.None?
    ensures r.Err? ==> r.error == AttributeError
    ensures r.Ok? ==> r.value == Portfolio.ApplicableCapacity(b, t) * t.constraints.maxApplicability
  {
    if !OrderedMaps.HasKey(b.processBaselines, t.processType) then Ok(0.0)
    else if t.techType == Technology.Transition then
      if t.fromBand.None? then Err(AttributeError)
      else
        var bandKey := t.processType + "_" + Technology.BandValue(t.fromBand.value);
        Ok(b.GetBandCapacity(t.processType, bandKey) * t.constraints.maxApplicability)
    else Ok(b.GetProcessProduction(t.processType) * t.constraints.maxApplicability)
  }

  /** The technology stored under `id`. */
  function TechAt(techs: Techs, id: string): Technology.Technology
    requires OrderedMaps.HasKey(techs, id)
  {
    OrderedMaps.Get(techs, id).value
  }

  /** No cell of the grid fails. */
  predicate CellsDefined<C>(cellOf: (Technology.Technology, int) -> Result<C>, techs: Techs, timeline: seq<int>)
  {
    forall id, y :: id in OrderedMaps.Keys(techs) && y in timeline ==> cellOf(TechAt(techs, id), y).Ok?
  }

  /** The filled dict: the cell of every (technology id, timeline year). */
  function CellTable<C>(cellOf: (Technology.Technology, int) -> Result<C>, techs: Techs,
                        timeline: seq<int>): map<(string, int), C>
    requires CellsDefined(cellOf, techs, timeline)
  {
    map k | k in Grid(OrderedMaps.Keys(techs), timeline) :: cellOf(TechAt(techs, k.0), k.1).value
  }

  /** The inner loop for one technology: a cell for every timeline year, or the first failure. */
  method TechnologyRow<C>(cellOf: (Technology.Technology, int) -> Result<C>, id: string,
                          t: Technology.Technology, timeline: seq<int>) returns (r: Result<map<(string, int), C>>)
    ensures r.Ok? <==> forall y :: y in timeline ==> cellOf(t, y).Ok?
    ensures r.Err? ==> exists y :: y in timeline && cellOf(t, y) == Err(r.error)
    ensures r.Ok? ==> forall k :: k in r.value <==> k.0 == id && k.1 in timeline
    ensures r.Ok? ==> forall k :: k in r.value ==> Ok(r.value[k]) == cellOf(t, k.1)
  {
    var row: map<(string, int), C> := map[];
    var j := 0;
    while j < |timeline|
      invariant 0 <= j <= |timeline|
      invariant forall k :: k in row <==> k.0 == id && k.1 in timeline[..j]
      invariant forall k :: k in row ==> Ok(row[k]) == cellOf(t, k.1)
      invariant forall y :: y in timeline[..j] ==> cellOf(t, y).Ok?
    {
      var year := timeline[j];
      var cell := cellOf(t, year);
      if cell.Err? {
        assert year in timeline;
        return Err(cell.error);
      }
      row := row[(id, year) := cell.value];
      assert timeline[..j + 1] == timeline[..j] + [year];
      j := j + 1;
    }
    assert timeline[..j] == timeline;
    r := Ok(row);
  }

  /**
   * The outer loop: the cells of every technology of the dict over the
   * timeline, or the failure of the first technology and year that fail.
   */
  method TechnologyParameters<C>(cellOf: (Technology.Technology, int) -> Result<C>, techs: Techs,
                                 timeline: seq<int>) returns (r: Result<map<(string, int), C>>)
    requires OrderedMaps.DistinctKeys(techs)
    ensures r.Ok? <==> CellsDefined(cellOf, techs, timeline)
    ensures r.Err? ==> exists id, y :: id in OrderedMaps.Keys(techs) && y in timeline &&
                                      cellOf(TechAt(techs, id), y) == Err(r.error)
    ensures r.Ok? ==> r.value == CellTable(cellOf, techs, timeline)
  {
    var keys := OrderedMaps.Keys(techs);
    var tbl: map<(string, int), C> := map[];
    var j := 0;
    while j < |techs|
      invariant 0 <= j <= |techs|
      invariant forall k :: k in tbl <==> k.0 in keys[..j] && k.1 in timeline
      invariant forall k :: k in tbl ==> k.0 in keys && Ok(tbl[k]) == cellOf(TechAt(techs, k.0), k.1)
    {
      var id := techs[j].0;
      OrderedMaps.GetFound(techs, id);
      assert keys[j] == id && id in keys;
      assert TechAt(techs, id) == techs[j].1;
      var row := TechnologyRow(cellOf, id, techs[j].1, timeline);
      if row.Err? {
        assert !CellsDefined(cellOf, techs, timeline);
        return Err(row.error);
      }
      tbl := tbl + row.value;
      assert keys[..j + 1] == keys[..j] + [id];
      j := j + 1;
    }
    assert keys[..j] == keys;
    assert CellsDefined(cellOf, techs, timeline) by {
      forall id, y | id in keys && y in timeline
        ensures cellOf(TechAt(techs, id), y).Ok?
      {
        assert (id, y) in tbl;
      }
    }
    r := Ok(tbl);
  }

  /** A cell of the filled dict is the cell of its technology and year. */
  lemma {:induction false} CellTableAt<C>(cellOf: (Technology.Technology, int) -> Result<C>, techs: Techs, timeline: seq<int>,
                       id: string, y: int)
    requires CellsDefined(cellOf, techs, timeline)
    requires id in OrderedMaps.Keys(techs) && y in timeline
    ensures (id, y) in CellTable(cellOf, techs, timeline)
    ensures Ok(CellTable(cellOf, techs, timeline)[(id, y)]) == cellOf(TechAt(techs, id), y)
  {
    assert (id, y) in Grid(OrderedMaps.Keys(techs), timeline);
  }
}
