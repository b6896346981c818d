/**
 * The technology portfolio: registration into three id-keyed dicts, the
 * process and band filters, the theoretical abatement potential, the
 * cost-ordered MACC with cumulative abatement, the cost-effective selection
 * and the summary statistics.
 */
module Portfolio {

  import opened Wrappers
  import opened Reals
  import opened Technology
  import OrderedMaps
  import Scenario
  import Sorting

  // ---------------------------------------------------------------- filters

  /** The technologies of `ts` for a process, those marked "All" included, in order. */
  function ForProcess(ts: seq<Technology>, processType: string): (r: seq<Technology>)
    ensures |r| <= |ts|
    ensures forall t :: t in r <==> t in ts && (t.processType == processType || t.processType == "All")
  {
    if |ts| == 0 then []
    else
      var t := ts[|ts| - 1];
      var rest := ForProcess(ts[..|ts| - 1], processType);
      assert forall u :: u in ts <==> u in ts[..|ts| - 1] || u == t;
      if t.processType == processType || t.processType == "All" then rest + [t] else rest
  }

  /** The technologies of `ts` for exactly this process whose source band is `band`, in order. */
  function FromBand(ts: seq<Technology>, processType: string, band: TechBand): (r: seq<Technology>)
    ensures |r| <= |ts|
    ensures forall t :: t in r <==> t in ts && t.processType == processType && t.fromBand == Some(band)
  {
    if |ts| == 0 then []
    else
      var t := ts[|ts| - 1];
      var rest := FromBand(ts[..|ts| - 1], processType, band);
      assert forall u :: u in ts <==> u in ts[..|ts| - 1] || u == t;
      if t.processType == processType && t.fromBand == Some(band) then rest + [t] else rest
  }

  /** Position of `max(ts, key=abatement_potential)`: the first of the largest. */
  function BestIndex(ts: seq<Technology>): (i: nat)
    requires |ts| > 0
    ensures i < |ts|
    ensures forall j :: 0 <= j < |ts| ==> ts[j].abatementPotential <= ts[i].abatementPotential
    ensures forall j :: 0 <= j < i ==> ts[j].abatementPotential < ts[i].abatementPotential
  {
    if |ts| == 1 then 0
    else
      var k := BestIndex(ts[..|ts| - 1]);
      assert ts[..|ts| - 1][k] == ts[k];
      if ts[|ts| - 1].abatementPotential > ts[k].abatementPotential then |ts| - 1 else k
  }

  /** `s.split('_')[-1]`: what follows the last underscore, or all of `s`. */
  function LastSegment(s: string): (r: string)
    ensures |r| <= |s| && r == s[|s| - |r|..]
    ensures '_' !in r
  {
    if |s| == 0 || s[|s| - 1] == '_' then ""
    else LastSegment(s[..|s| - 1]) + [s[|s| - 1]]
  }

  /** A band key `"<process>_<band>"` resolves to its band. */
  lemma {:induction false} BandKeySuffix(processType: string, b: TechBand)
    ensures ParseBand(LastSegment(processType + "_" + BandValue(b))) == Some(b)
  {
    var key := processType + "_" + BandValue(b);
    assert key[..|key| - 1][..|key| - 2][|key| - 3] == '_';
    assert LastSegment(key[..|key| - 2]) == "";
    assert key[..|key| - 1][..|key| - 2] == key[..|key| - 2];
    assert LastSegment(key[..|key| - 1]) == [key[|key| - 2]];
    assert LastSegment(key) == BandValue(b);
    ParseBandRoundTrip(b, BandValue(b));
  }

  // ---------------------------------------------------- abatement potential

  /**
   * One band's transition potential (Mt): capacity times the abatement and
   * applicability of the band's best transition, /1000; nothing for a band
   * whose suffix is not HT, MT or LT, or that no transition starts from.
   */
  function BandPotential(transitions: seq<Technology>, processType: string, band: string, capacityKt: real): real
  {
    match ParseBand(LastSegment(band))
    case None => 0.0
    case Some(b) =>
      var from := FromBand(transitions, processType, b);
      if |from| == 0 then 0.0
      else TransitionTerm(capacityKt, from[BestIndex(from)])
  }

  /** Tonnes abated by transition `best` over `capacityKt` kt of its band, at full applicability share. */
  function TransitionTerm(capacityKt: real, best: Technology): real
  {
    capacityKt * best.abatementPotential * best.constraints.maxApplicability / 1000.0
  }

  /** Transition potential summed over a process's band shares, in dict order. */
  function BandsPotential(transitions: seq<Technology>, processType: string, productionKt: real,
                          bands: OrderedMaps.Dict<string, real>): real
  {
    if |bands| == 0 then 0.0
    else
      var last := bands[|bands| - 1];
      BandsPotential(transitions, processType, productionKt, bands[..|bands| - 1])
        + BandPotential(transitions, processType, last.0, productionKt * last.1)
  }

  /** Each alternative adds production times applicability times abatement, /1000. */
  function AlternativesPotential(alternatives: seq<Technology>, productionKt: real): real
  {
    if |alternatives| == 0 then 0.0
    else
      var alt := alternatives[|alternatives| - 1];
      AlternativesPotential(alternatives[..|alternatives| - 1], productionKt)
        + productionKt * alt.constraints.maxApplicability * alt.abatementPotential / 1000.0
  }

  function ProcessPotential(transitions: seq<Technology>, alternatives: seq<Technology>,
                            processType: string, pb: Scenario.ProcessBaseline): real
  {
    BandsPotential(transitions, processType, pb.productionKt, pb.bandDistribution)
      + AlternativesPotential(ForProcess(alternatives, processType), pb.productionKt)
  }

  /** The theoretical potential (Mt) over every process of the baseline. */
  function TotalPotential(transitions: seq<Technology>, alternatives: seq<Technology>,
                          processes: OrderedMaps.Dict<string, Scenario.ProcessBaseline>): real
  {
    if |processes| == 0 then 0.0
    else
      var (processType, pb) := processes[|processes| - 1];
      TotalPotential(transitions, alternatives, processes[..|processes| - 1])
        + ProcessPotential(transitions, alternatives, processType, pb)
  }

  /** Technologies whose abatement and applicability are non-negative. */
  predicate NonNegativeTechs(ts: seq<Technology>)
  {
    forall t :: t in ts ==> t.abatementPotential >= 0.0 && t.constraints.maxApplicability >= 0.0
  }

  /** Processes whose production and band shares are non-negative. */
  predicate NonNegativeProcesses(processes: OrderedMaps.Dict<string, Scenario.ProcessBaseline>)
  {
    forall p :: p in processes ==>
      p.1.productionKt >= 0.0 && forall i :: 0 <= i < |p.1.bandDistribution| ==> p.1.bandDistribution[i].1 >= 0.0
  }

  lemma {:induction false} BandsPotentialNonNegative(transitions: seq<Technology>, processType: string,
                                                      productionKt: real, bands: OrderedMaps.Dict<string, real>)
    requires NonNegativeTechs(transitions) && productionKt >= 0.0
    requires forall i :: 0 <= i < |bands| ==> bands[i].1 >= 0.0
    ensures BandsPotential(transitions, processType, productionKt, bands) >= 0.0
  {
    if |bands| > 0 {
      // the operands are written as in `BandsPotential`: a product of a local copy would be a different term
      var init := bands[..|bands| - 1];
      assert forall i :: 0 <= i < |init| ==> init[i] == bands[i];
      BandsPotentialNonNegative(transitions, processType, productionKt, init);
      MulNonNegative(productionKt, bands[|bands| - 1].1);
      BandPotentialNonNegative(transitions, processType, bands[|bands| - 1].0, productionKt * bands[|bands| - 1].1);
    }
  }

  lemma {:induction false} BandPotentialNonNegative(transitions: seq<Technology>, processType: string, band: string, capacityKt: real)
    requires NonNegativeTechs(transitions) && capacityKt >= 0.0
    ensures BandPotential(transitions, processType, band, capacityKt) >= 0.0
  {
    match ParseBand(LastSegment(band))
    case None =>
    case Some(b) =>
      var from := FromBand(transitions, processType, b);
      if |from| > 0 {
        var best := from[BestIndex(from)];
        assert best in transitions;
        TransitionTermNonNegative(capacityKt, best);
      }
  }

  lemma {:induction false} TransitionTermNonNegative(capacityKt: real, best: Technology)
    requires capacityKt >= 0.0 && best.abatementPotential >= 0.0 && best.constraints.maxApplicability >= 0.0
    ensures TransitionTerm(capacityKt, best) >= 0.0
  {
    MulNonNegative(capacityKt, best.abatementPotential);
    MulNonNegative(capacityKt * best.abatementPotential, best.constraints.maxApplicability);
  }

  lemma {:induction false} AlternativesPotentialNonNegative(alternatives: seq<Technology>, productionKt: real)
    requires NonNegativeTechs(alternatives) && productionKt >= 0.0
    ensures AlternativesPotential(alternatives, productionKt) >= 0.0
  {
    if |alternatives| > 0 {
      var alt := alternatives[|alternatives| - 1];
      assert alt in alternatives;
      assert forall t :: t in alternatives[..|alternatives| - 1] ==> t in alternatives;
      AlternativesPotentialNonNegative(alternatives[..|alternatives| - 1], productionKt);
      MulNonNegative(productionKt, alt.constraints.maxApplicability);
      MulNonNegative(productionKt * alt.constraints.maxApplicability, alt.abatementPotential);
    }
  }

  /** With non-negative data the potential is non-negative. */
  lemma {:induction false} TotalPotentialNonNegative(transitions: seq<Technology>, alternatives: seq<Technology>,
                                                      processes: OrderedMaps.Dict<string, Scenario.ProcessBaseline>)
    requires NonNegativeTechs(transitions) && NonNegativeTechs(alternatives)
    requires NonNegativeProcesses(processes)
    ensures TotalPotential(transitions, alternatives, processes) >= 0.0
  {
    if |processes| > 0 {
      var (processType, pb) := processes[|processes| - 1];
      assert processes[|processes| - 1] in processes;
      assert forall p :: p in processes[..|processes| - 1] ==> p in processes;
      TotalPotentialNonNegative(transitions, alternatives, processes[..|processes| - 1]);
      BandsPotentialNonNegative(transitions, processType, pb.productionKt, pb.bandDistribution);
      AlternativesPotentialNonNegative(ForProcess(alternatives, processType), pb.productionKt);
    }
  }

  /** A band listed as `"<process>_<band>"` is credited with the best transition from that band. */
  lemma {:induction false} BandPotentialOfBandKey(transitions: seq<Technology>, processType: string, b: TechBand, capacityKt: real)
    ensures var from := FromBand(transitions, processType, b);
            BandPotential(transitions, processType, processType + "_" + BandValue(b), capacityKt)
            == if |from| == 0 then 0.0
               else TransitionTerm(capacityKt, from[BestIndex(from)])
  {
    BandKeySuffix(processType, b);
  }

  // --------------------------------------------------------------- the MACC

  datatype MaccRow = MaccRow(
    techId: string,
    processType: string,
    techType: TechType,
    lcoa: ExtReal,
    abatementMt: real,
    maxDeploymentKt: real,
    year: int)

  /** A MACC row with its `CumulativeAbatement_MtCO2`. */
  datatype MaccPoint = MaccPoint(row: MaccRow, cumulativeMt: real)

  /** The baseline capacity a technology can act on: its source band, or its whole process. */
  function ApplicableCapacity(b: Scenario.EmissionsBaseline, t: Technology): real
  {
    if t.techType == Transition then
      if t.fromBand.Some? && OrderedMaps.HasKey(b.processBaselines, t.processType)
      then b.GetBandCapacity(t.processType, t.processType + "_" + BandValue(t.fromBand.value))
      else 0.0
    else b.GetProcessProduction(t.processType)
  }

  /** Abatement (Mt) a technology offers in `year`: its deployment cap times its abatement, /1000. */
  function OfferedMt(b: Scenario.EmissionsBaseline, t: Technology, year: int): real
  {
    t.MaxDeployment(year, ApplicableCapacity(b, t)) * t.abatementPotential / 1000.0
  }

  /** Whether a technology gets a MACC row: started by `year` and offering positive abatement. */
  predicate InMacc(b: Scenario.EmissionsBaseline, t: Technology, year: int)
  {
    year >= t.constraints.startYear && OfferedMt(b, t, year) > 0.0
  }

  function RowOf(b: Scenario.EmissionsBaseline, t: Technology, year: int, lcoa: ExtReal): MaccRow
  {
    MaccRow(t.techId, t.processType, t.techType, lcoa, OfferedMt(b, t, year),
            t.MaxDeployment(year, ApplicableCapacity(b, t)), year)
  }

  /**
   * The unsorted MACC rows, in portfolio order. The LCOA at the default rate
   * is computed for kept rows only; where it raises, so does the curve.
   */
  function MaccRows(b: Scenario.EmissionsBaseline, ts: seq<Technology>, year: int): Result<seq<MaccRow>>
  {
    if |ts| == 0 then Ok([])
    else
      var t := ts[|ts| - 1];
      var rest := MaccRows(b, ts[..|ts| - 1], year);
      if rest.Err? then rest
      else if !InMacc(b, t, year) then rest
      else
        match t.DefaultLcoa()
        case Err(e) => Err(e)
        case Ok(l) => Ok(rest.value + [RowOf(b, t, year, l)])
  }

  /**
   * The rows are exactly those of the started technologies with positive
   * abatement, and the curve fails exactly when one of them has no LCOA.
   */
  lemma {:induction false} MaccRowsSpec(b: Scenario.EmissionsBaseline, ts: seq<Technology>, year: int)
    ensures MaccRows(b, ts, year).Ok? <==> forall t :: t in ts && InMacc(b, t, year) ==> t.DefaultLcoa().Ok?
    ensures MaccRows(b, ts, year).Ok? ==> forall row :: row in MaccRows(b, ts, year).value ==>
              exists t :: t in ts && InMacc(b, t, year) && t.DefaultLcoa().Ok? && row == RowOf(b, t, year, t.DefaultLcoa().value)
    ensures MaccRows(b, ts, year).Ok? ==> forall t :: t in ts && InMacc(b, t, year) ==>
              RowOf(b, t, year, t.DefaultLcoa().value) in MaccRows(b, ts, year).value
    ensures MaccRows(b, ts, year).Ok? ==> forall row :: row in MaccRows(b, ts, year).value ==>
              row.abatementMt > 0.0 && row.year == year
  {
    if |ts| > 0 {
      MaccRowsSpec(b, ts[..|ts| - 1], year);
      assert forall u :: u in ts <==> u in ts[..|ts| - 1] || u == ts[|ts| - 1];
    }
  }

  /** Ascending LCOA, `inf` last. */
  predicate LcoaLe(a: MaccRow, b: MaccRow)
  {
    a.lcoa.Le(b.lcoa)
  }

  lemma {:induction false} LcoaLeTotalPreorder()
    ensures Sorting.TotalPreorder(LcoaLe)
  {
  }

  function Abatements(rows: seq<MaccRow>): (s: seq<real>)
    ensures |s| == |rows|
    ensures forall i :: 0 <= i < |rows| ==> s[i] == rows[i].abatementMt
  {
    seq(|rows|, i requires 0 <= i < |rows| => rows[i].abatementMt)
  }

  /** `df.sort_values('LCOA')` followed by the cumulative abatement column. */
  function SortedCurve(rows: seq<MaccRow>): (ps: seq<MaccPoint>)
    ensures |ps| == |rows|
  {
    var sorted := Sorting.SortBy(rows, LcoaLe);
    var cumulative := PrefixSums(Abatements(sorted));
    seq(|sorted|, i requires 0 <= i < |sorted| => MaccPoint(sorted[i], cumulative[i]))
  }

  function MaccCurve(b: Scenario.EmissionsBaseline, ts: seq<Technology>, year: int): Result<seq<MaccPoint>>
  {
    match MaccRows(b, ts, year)
    case Err(e) => Err(e)
    case Ok(rows) => Ok(SortedCurve(rows))
  }

  function Rows(ps: seq<MaccPoint>): seq<MaccRow>
  {
    seq(|ps|, i requires 0 <= i < |ps| => ps[i].row)
  }

  /**
   * The curve holds exactly the kept rows, in ascending LCOA; each cumulative
   * value is the sum of the abatements up to and including its row, so the
   * cumulative column rises strictly and ends at the total offered.
   */
  lemma {:induction false} MaccCurveShape(b: Scenario.EmissionsBaseline, ts: seq<Technology>, year: int)
    requires MaccCurve(b, ts, year).Ok?
    ensures var ps := MaccCurve(b, ts, year).value;
            multiset(Rows(ps)) == multiset(MaccRows(b, ts, year).value) &&
            Sorting.SortedBy(Rows(ps), LcoaLe) &&
            (forall i :: 0 <= i < |ps| ==> ps[i].row.abatementMt > 0.0) &&
            (forall i :: 0 <= i < |ps| ==> ps[i].cumulativeMt == Sum(Abatements(Rows(ps))[..i + 1])) &&
            (forall i, j :: 0 <= i < j < |ps| ==> ps[i].cumulativeMt < ps[j].cumulativeMt)
  {
    MaccRowsSpec(b, ts, year);
    var rows := MaccRows(b, ts, year).value;
    assert forall i :: 0 <= i < |rows| ==> rows[i].abatementMt > 0.0 by {
      forall i | 0 <= i < |rows| ensures rows[i].abatementMt > 0.0 {
        assert rows[i] in rows;
      }
    }
    SortedCurveShape(rows);
  }

  /** Sorting keeps the rows and orders them; the cumulative column is the running total. */
  lemma {:induction false} SortedCurveShape(rows: seq<MaccRow>)
    requires forall i :: 0 <= i < |rows| ==> rows[i].abatementMt > 0.0
    ensures var ps := SortedCurve(rows);
            multiset(Rows(ps)) == multiset(rows) &&
            Sorting.SortedBy(Rows(ps), LcoaLe) &&
            (forall i :: 0 <= i < |ps| ==> ps[i].row.abatementMt > 0.0) &&
            (forall i :: 0 <= i < |ps| ==> ps[i].cumulativeMt == Sum(Abatements(Rows(ps))[..i + 1])) &&
            (forall i, j :: 0 <= i < j < |ps| ==> ps[i].cumulativeMt < ps[j].cumulativeMt)
  {
    var sorted := Sorting.SortBy(rows, LcoaLe);
    var ps := SortedCurve(rows);
    assert Rows(ps) == sorted;
    LcoaLeTotalPreorder();
    Sorting.SortBySorted(rows, LcoaLe);
    forall i | 0 <= i < |sorted|
      ensures sorted[i].abatementMt > 0.0
    {
      assert sorted[i] in multiset(rows);
    }
    PrefixSumsIncreasing(Abatements(sorted));
  }

  // ----------------------------------------------------- cost-effectiveness

  /** The technologies whose default-rate LCOA is at most the threshold (`inf` never is). */
  function CostEffective(ts: seq<Technology>, threshold: real): (r: Result<seq<Technology>>)
    ensures r.Ok? <==> forall t :: t in ts ==> t.DefaultLcoa().Ok?
    ensures r.Ok? ==> forall t :: t in r.value <==> t in ts && AtMost(t.DefaultLcoa().value, threshold)
  {
    if |ts| == 0 then Ok([])
    else
      var t := ts[|ts| - 1];
      var rest := CostEffective(ts[..|ts| - 1], threshold);
      assert forall u :: u in ts <==> u in ts[..|ts| - 1] || u == t;
      if rest.Err? then rest
      else
        match t.DefaultLcoa()
        case Err(e) => Err(e)
        case Ok(l) => if AtMost(l, threshold) then Ok(rest.value + [t]) else rest
  }

  /**
   * The list keeps the portfolio's order: when it is built, the cost-effective
   * technologies of `a + b` are those of `a` followed by those of `b`.
   */
  lemma {:induction false} CostEffectiveAppend(a: seq<Technology>, b: seq<Technology>, threshold: real)
    requires CostEffective(a + b, threshold).Ok?
    ensures CostEffective(a, threshold).Ok? && CostEffective(b, threshold).Ok?
    ensures CostEffective(a + b, threshold).value == CostEffective(a, threshold).value + CostEffective(b, threshold).value
    decreases |b|
  {
    if |b| == 0 {
      assert a + b == a;
    } else {
      var n := |b| - 1;
      assert (a + b)[..|a + b| - 1] == a + b[..n];
      assert forall t :: t in b[..n] ==> t in b;
      CostEffectiveAppend(a, b[..n], threshold);
    }
  }

  /** No technology without positive abatement is ever cost-effective. */
  lemma {:induction false} CostEffectiveHaveAbatement(ts: seq<Technology>, threshold: real)
    requires CostEffective(ts, threshold).Ok?
    ensures forall t :: t in CostEffective(ts, threshold).value ==> t.abatementPotential > 0.0
  {
  }

  // ---------------------------------------------------------------- summary

  /** The finite default-rate LCOAs, in order. */
  function FiniteLcoas(ts: seq<Technology>): (r: Result<seq<real>>)
    ensures r.Ok? <==> forall t :: t in ts ==> t.DefaultLcoa().Ok?
    ensures r.Ok? ==> |r.value| <= |ts|
    ensures r.Ok? ==> forall x :: x in r.value <==> exists t :: t in ts && t.DefaultLcoa() == Ok(Finite(x))
  {
    if |ts| == 0 then Ok([])
    else
      var t := ts[|ts| - 1];
      var rest := FiniteLcoas(ts[..|ts| - 1]);
      assert forall u :: u in ts <==> u in ts[..|ts| - 1] || u == t;
      if rest.Err? then rest
      else
        match t.DefaultLcoa()
        case Err(e) => Err(e)
        case Ok(l) => if l.Finite? then Ok(rest.value + [l.v]) else rest
  }

  datatype PortfolioSummary = PortfolioSummary(
    totalTechnologies: nat,
    transitions: nat,
    alternatives: nat,
    processesCovered: nat,
    processTypes: set<string>,
    avgLcoa: real,
    minLcoa: real,
    maxLcoa: real)

  function ProcessTypes(ts: seq<Technology>): (s: set<string>)
    ensures forall p :: p in s <==> exists t :: t in ts && t.processType == p
  {
    set t | t in ts :: t.processType
  }

  function Summarize(ts: seq<Technology>, transitions: nat, alternatives: nat): (r: Result<PortfolioSummary>)
  {
    match FiniteLcoas(ts)
    case Err(e) => Err(e)
    case Ok(ls) =>
      var types := ProcessTypes(ts);
      if |ls| == 0 then Ok(PortfolioSummary(|ts|, transitions, alternatives, |types|, types, 0.0, 0.0, 0.0))
      else Ok(PortfolioSummary(|ts|, transitions, alternatives, |types|, types,
                               Sum(ls) / |ls| as real, MinOf(ls), MaxOf(ls)))
  }

  /**
   * The statistics are over finite LCOAs only: all three are 0 when there
   * are none, else min <= average <= max, and min and max are LCOAs of
   * portfolio technologies.
   */
  lemma {:induction false} SummaryStatistics(ts: seq<Technology>, transitions: nat, alternatives: nat)
    requires Summarize(ts, transitions, alternatives).Ok?
    ensures var s := Summarize(ts, transitions, alternatives).value;
            s.totalTechnologies == |ts| && s.processesCovered == |s.processTypes| &&
            s.minLcoa <= s.avgLcoa <= s.maxLcoa &&
            ((forall t :: t in ts ==> t.DefaultLcoa().value.Infinite?) ==> s.avgLcoa == s.minLcoa == s.maxLcoa == 0.0) &&
            ((exists t :: t in ts && t.DefaultLcoa().value.Finite?) ==>
               (exists t :: t in ts && t.DefaultLcoa() == Ok(Finite(s.minLcoa))) &&
               (exists t :: t in ts && t.DefaultLcoa() == Ok(Finite(s.maxLcoa))))
  {
    var ls := FiniteLcoas(ts).value;
    if |ls| > 0 {
      MeanBetween(ls);
      assert MinOf(ls) in ls && MaxOf(ls) in ls;
    }
  }

  // -------------------------------------------------------------- the class

  /** A dict of technologies with distinct keys, each entry under its own id. */
  predicate KeyedById(d: OrderedMaps.Dict<string, Technology>)
  {
    OrderedMaps.DistinctKeys(d) && forall p :: p in d ==> p.0 == p.1.techId
  }

  /** Storing a technology under its id keeps the dict keyed by id and adds exactly that key and entry. */
  lemma {:induction false} PutKeyedById(d: OrderedMaps.Dict<string, Technology>, t: Technology)
    requires KeyedById(d)
    ensures KeyedById(OrderedMaps.Put(d, t.techId, t))
    ensures forall k :: OrderedMaps.HasKey(OrderedMaps.Put(d, t.techId, t), k) <==> k == t.techId || OrderedMaps.HasKey(d, k)
    ensures forall p :: p in OrderedMaps.Put(d, t.techId, t) ==> p == (t.techId, t) || p in d
  {
    OrderedMaps.PutDistinct(d, t.techId, t);
    OrderedMaps.PutElements(d, t.techId, t);
    OrderedMaps.PutHasKey(d, t.techId, t);
  }

  class TechPortfolio {
    var technologies: OrderedMaps.Dict<string, Technology>
    var transitions: OrderedMaps.Dict<string, Technology>
    var alternatives: OrderedMaps.Dict<string, Technology>

    /**
     * Each dict has distinct keys, each entry sits under its own id, the two
     * class-specific dicts hold only their class, and their ids are all
     * registered technologies.
     */
    ghost predicate Valid()
      reads this
    {
      KeyedById(technologies) &&
      KeyedById(transitions) &&
      KeyedById(alternatives) &&
      (forall p :: p in transitions ==> p.1.kind == TransitionClass) &&
      (forall p :: p in alternatives ==> p.1.kind == AlternativeClass) &&
      (forall k :: OrderedMaps.HasKey(transitions, k) ==> OrderedMaps.HasKey(technologies, k)) &&
      (forall k :: OrderedMaps.HasKey(alternatives, k) ==> OrderedMaps.HasKey(technologies, k))
    }

    constructor ()
      ensures Valid()
      ensures technologies == [] && transitions == [] && alternatives == []
    {
      technologies := [];
      transitions := [];
      alternatives := [];
    }

    /**
     * `add_technology`: stored under its id (a re-used id is overwritten in
     * place), and also in `transitions` or `alternatives` by class.
     */
    method AddTechnology(t: Technology)
      requires Valid()
      modifies this
      ensures Valid()
      ensures technologies == OrderedMaps.Put(old(technologies), t.techId, t)
      ensures transitions == if t.kind == TransitionClass then OrderedMaps.Put(old(transitions), t.techId, t)
                             else old(transitions)
      ensures alternatives == if t.kind == AlternativeClass then OrderedMaps.Put(old(alternatives), t.techId, t)
                              else old(alternatives)
    {
      PutKeyedById(technologies, t);
      technologies := OrderedMaps.Put(technologies, t.techId, t);
      if t.kind == TransitionClass {
        PutKeyedById(transitions, t);
        transitions := OrderedMaps.Put(transitions, t.techId, t);
      } else if t.kind == AlternativeClass {
        PutKeyedById(alternatives, t);
        alternatives := OrderedMaps.Put(alternatives, t.techId, t);
      }
    }

    /** `get_technologies_for_process`. */
    function TechnologiesForProcess(processType: string): (r: seq<Technology>)
      reads this
      ensures forall t :: t in r <==> t in OrderedMaps.Values(technologies) &&
                                      (t.processType == processType || t.processType == "All")
    {
      ForProcess(OrderedMaps.Values(technologies), processType)
    }

    /** `get_transitions_from_band`. */
    function TransitionsFromBand(processType: string, band: TechBand): (r: seq<Technology>)
      reads this
      ensures forall t :: t in r <==> t in OrderedMaps.Values(transitions) &&
                                      t.processType == processType && t.fromBand == Some(band)
    {
      FromBand(OrderedMaps.Values(transitions), processType, band)
    }

    /** `get_alternatives_for_process`. */
    function AlternativesForProcess(processType: string): (r: seq<Technology>)
      reads this
      ensures forall t :: t in r <==> t in OrderedMaps.Values(alternatives) &&
                                      (t.processType == processType || t.processType == "All")
    {
      ForProcess(OrderedMaps.Values(alternatives), processType)
    }

    /** `calculate_total_abatement_potential`: the nested accumulation loops. */
    method CalculateTotalAbatementPotential(baseline: Scenario.EmissionsBaseline) returns (total: real)
      ensures total == TotalPotential(OrderedMaps.Values(transitions), OrderedMaps.Values(alternatives),
                                      baseline.processBaselines)
    {
      var trans := OrderedMaps.Values(transitions);
      var alts := OrderedMaps.Values(alternatives);
      var processes := baseline.processBaselines;
      total := 0.0;
      var i := 0;
      while i < |processes|
        invariant 0 <= i <= |processes|
        invariant total == TotalPotential(trans, alts, processes[..i])
      {
        var (processType, pb) := processes[i];
        var processPotential := SumBandPotentials(trans, processType, pb.productionKt, pb.bandDistribution);
        var altPotential := SumAlternativePotentials(AlternativesForProcess(processType), pb.productionKt);
        total := total + (processPotential + altPotential);
        assert processes[..i + 1][..i] == processes[..i];
        i := i + 1;
      }
      assert processes[..i] == processes;
    }

    /**
     * `generate_macc_curve`: the row-collecting loop, then the LCOA sort and
     * the cumulative column.
     */
    method GenerateMaccCurve(baseline: Scenario.EmissionsBaseline, year: int) returns (r: Result<seq<MaccPoint>>)
      ensures r == MaccCurve(baseline, OrderedMaps.Values(technologies), year)
    {
      var ts := OrderedMaps.Values(technologies);
      var rows: seq<MaccRow> := [];
      var i := 0;
      while i < |ts|
        invariant 0 <= i <= |ts|
        invariant MaccRows(baseline, ts[..i], year) == Ok(rows)
      {
        var t := ts[i];
        assert ts[..i + 1][..i] == ts[..i];
        if year >= t.constraints.startYear {
          var abatement := OfferedMt(baseline, t, year);
          if abatement > 0.0 {
            var lcoa := t.DefaultLcoa();
            if lcoa.Err? {
              assert MaccRows(baseline, ts[..i + 1], year).Err?;
              MaccRowsErrSticky(baseline, ts, i + 1, year);
              assert ts[..|ts|] == ts;
              return Err(lcoa.error);
            }
            rows := rows + [RowOf(baseline, t, year, lcoa.value)];
          }
        }
        i := i + 1;
      }
      assert ts[..i] == ts;
      r := Ok(SortedCurve(rows));
    }

    /** `get_cost_effective_technologies`. */
    function GetCostEffectiveTechnologies(maxCostPerTco2: real): (r: Result<seq<Technology>>)
      reads this
      ensures r.Ok? <==> forall t :: t in OrderedMaps.Values(technologies) ==> t.DefaultLcoa().Ok?
      ensures r.Ok? ==> forall t :: t in r.value <==> (t in OrderedMaps.Values(technologies) &&
                                                      AtMost(t.DefaultLcoa().value, maxCostPerTco2))
    {
      CostEffective(OrderedMaps.Values(technologies), maxCostPerTco2)
    }

    /** `get_portfolio_summary`. */
    function GetPortfolioSummary(): (r: Result<PortfolioSummary>)
      reads this
      ensures r.Ok? ==> r.value.totalTechnologies == |technologies| &&
                        r.value.transitions == |transitions| && r.value.alternatives == |alternatives|
    {
      Summarize(OrderedMaps.Values(technologies), |transitions|, |alternatives|)
    }

    /** `__len__`: the number of distinct registered ids. */
    function Len(): (n: nat)
      reads this
      ensures n == |OrderedMaps.Keys(technologies)|
    {
      |technologies|
    }
  }

  /** The loop over one process's band shares, each credited with its band's best transition. */
  method SumBandPotentials(transitions: seq<Technology>, processType: string, productionKt: real,
                           bands: OrderedMaps.Dict<string, real>) returns (total: real)
    ensures total == BandsPotential(transitions, processType, productionKt, bands)
  {
    total := 0.0;
    var j := 0;
    while j < |bands|
      invariant 0 <= j <= |bands|
      invariant total == BandsPotential(transitions, processType, productionKt, bands[..j])
    {
      var (band, share) := bands[j];
      var contribution := BandContribution(transitions, processType, band, productionKt * share);
      assert bands[..j + 1][..j] == bands[..j];
      total := total + contribution;
      j := j + 1;
    }
    assert bands[..j] == bands;
  }

  /** One band's share: the best transition starting from the band named by the key's suffix. */
  method BandContribution(transitions: seq<Technology>, processType: string, band: string, capacityKt: real)
    returns (contribution: real)
    ensures contribution == BandPotential(transitions, processType, band, capacityKt)
  {
    contribution := 0.0;
    match ParseBand(LastSegment(band)) {
      case None =>
      case Some(current) =>
        var from := FromBand(transitions, processType, current);
        if |from| > 0 {
          contribution := TransitionTerm(capacityKt, from[BestIndex(from)]);
        }
    }
  }

  /** The loop over a process's alternatives, each over its applicable share of production. */
  method SumAlternativePotentials(alternatives: seq<Technology>, productionKt: real) returns (total: real)
    ensures total == AlternativesPotential(alternatives, productionKt)
  {
    total := 0.0;
    var k := 0;
    while k < |alternatives|
      invariant 0 <= k <= |alternatives|
      invariant total == AlternativesPotential(alternatives[..k], productionKt)
    {
      var alt := alternatives[k];
      var altCapacity := productionKt * alt.constraints.maxApplicability;
      assert alternatives[..k + 1][..k] == alternatives[..k];
      total := total + altCapacity * alt.abatementPotential / 1000.0;
      k := k + 1;
    }
    assert alternatives[..k] == alternatives;
  }

  /** Once a prefix of the technologies makes the rows fail, every longer prefix does too. */
  lemma {:induction false} MaccRowsErrSticky(b: Scenario.EmissionsBaseline, ts: seq<Technology>, n: nat, year: int)
    requires n <= |ts|
    requires MaccRows(b, ts[..n], year).Err?
    ensures MaccRows(b, ts[..|ts|], year) == MaccRows(b, ts[..n], year)
    decreases |ts| - n
  {
    if n < |ts| {
      assert ts[..n + 1][..n] == ts[..n];
      MaccRowsErrSticky(b, ts, n + 1, year);
    }
  }
}
