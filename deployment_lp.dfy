/**
 * The technology-deployment LP shared by the two PuLP MACC scripts: one
 * continuous variable per technology and year from its commercial year on,
 * bounded by its maximum penetration; the discounted-cost objective; the
 * yearly abatement requirement; the product-competition cap; and the
 * extraction of the significant deployments once a solution is known.
 * Nothing is solved: the constraints are predicates over a candidate
 * decision, and the lemmas state what every decision satisfying them has in
 * common.
 */
module DeploymentLp {

  import opened Wrappers
  import opened Reals
  import TransitionFill

  /** The year the 3% discounting starts from. */
  const BaseYear: int := 2025
  const DiscountBase: real := 1.03
  /** Deployment levels at or below this are not recorded. */
  const RecordThreshold: real := 0.001
  /** USD per (Mt x USD/t). */
  const TonnesPerMt: real := 1000000.0

  /** A row of the merged technology table (MACC template joined with the technology options). */
  datatype TechOption = TechOption(techId: string, product: string, startYear: int, maxPenetration: real,
                                   rampPerYear: real, costPerTon: real, abatementMt: real, trl: int)

  /** A variable is keyed by technology id and year. */
  type Key = (string, int)
  /** A candidate value for every variable. */
  type Decision = map<Key, real>

  /** A row of a BAU emission pathway file. */
  datatype BauPoint = BauPoint(year: int, emissionsMt: real)

  /** `bau[bau['year'] == y]['emissions_mt_co2'].iloc[0]`: the first row of that year; IndexError when there is none. */
  function BauAt(bau: seq<BauPoint>, y: int): (r: Result<real>)
    ensures r.Err? <==> forall i :: 0 <= i < |bau| ==> bau[i].year != y
    ensures r.Err? ==> r.error == IndexError
    ensures r.Ok? ==> exists i :: 0 <= i < |bau| && bau[i].year == y && bau[i].emissionsMt == r.value &&
                                  forall j :: 0 <= j < i ==> bau[j].year != y
  {
    if |bau| == 0 then Err(IndexError)
    else if bau[0].year == y then Ok(bau[0].emissionsMt)
    else
      var r := BauAt(bau[1..], y);
      assert forall i :: 0 < i < |bau| ==> bau[1..][i - 1] == bau[i];
      if r.Ok? then
        assert exists i :: 0 <= i < |bau| && bau[i].year == y && bau[i].emissionsMt == r.value &&
                           forall j :: 0 <= j < i ==> bau[j].year != y by {
          var i :| 0 <= i < |bau[1..]| && bau[1..][i].year == y && bau[1..][i].emissionsMt == r.value &&
                   forall j :: 0 <= j < i ==> bau[1..][j].year != y;
          assert forall j :: 0 < j < i + 1 ==> bau[j] == bau[1..][j - 1];
        }
        r
      else r
  }

  // ------------------------------------------------------------ discounting

  /**
   * `1 / 1.03 ** (year - 2025)`: exactly 1 in 2025, positive, and a power of
   * 1.03 above 1 for years before 2025 (a negative exponent).
   */
  function DiscountFactor(year: int): (df: real)
    ensures df > 0.0
    ensures year == BaseYear ==> df == 1.0
  {
    if year >= BaseYear then
      PowPositive(DiscountBase, year - BaseYear);
      1.0 / Pow(DiscountBase, year - BaseYear)
    else
      PowPositive(DiscountBase, BaseYear - year);
      Pow(DiscountBase, BaseYear - year)
  }

  /** A later year is discounted strictly more. */
  lemma {:induction false} DiscountFactorDecreasing(year: int)
    ensures DiscountFactor(year + 1) < DiscountFactor(year)
  {
    if year >= BaseYear {
      var n := year - BaseYear;
      PowPositive(DiscountBase, n);
      assert Pow(DiscountBase, n + 1) == DiscountBase * Pow(DiscountBase, n);
      var p := Pow(DiscountBase, n);
      assert 1.0 / (DiscountBase * p) < 1.0 / p by {
        assert DiscountBase * p > p;
      }
    } else if year + 1 == BaseYear {
      assert Pow(DiscountBase, 1) == DiscountBase;
    } else {
      var n := BaseYear - year - 1;
      PowPositive(DiscountBase, n);
      assert Pow(DiscountBase, n + 1) == DiscountBase * Pow(DiscountBase, n);
    }
  }

  // ------------------------------------------------------------ variables

  /** Row `t` creates the variable of key `k`: same id, a listed year, not before its commercial year. */
  predicate Creates(t: TechOption, years: seq<int>, k: Key)
  {
    k.0 == t.techId && k.1 in years && k.1 >= t.startYear
  }

  /** The variables one row creates, each with that row's upper bound. */
  function RowBounds(t: TechOption, years: seq<int>): (m: map<Key, real>)
    ensures forall k :: k in m <==> Creates(t, years, k)
    ensures forall k :: k in m ==> m[k] == t.maxPenetration
  {
    map y | y in years && y >= t.startYear :: (t.techId, y) := t.maxPenetration
  }

  /**
   * `deployment_vars` with each variable's upper bound: a later row with the
   * same id and year replaces the variable of an earlier one.
   */
  function Bounds(techs: seq<TechOption>, years: seq<int>): map<Key, real>
  {
    if |techs| == 0 then map[]
    else Bounds(techs[..|techs| - 1], years) + RowBounds(techs[|techs| - 1], years)
  }

  /** The last row that creates `k`. */
  predicate LastCreator(techs: seq<TechOption>, years: seq<int>, k: Key, i: int)
  {
    0 <= i < |techs| && Creates(techs[i], years, k) &&
    forall j :: i < j < |techs| ==> !Creates(techs[j], years, k)
  }

  /** A variable exists exactly for the keys some row creates. */
  lemma {:induction false} BoundsDomain(techs: seq<TechOption>, years: seq<int>, k: Key)
    ensures k in Bounds(techs, years) <==> exists i :: 0 <= i < |techs| && Creates(techs[i], years, k)
  {
    if |techs| > 0 {
      var n := |techs| - 1;
      var init := techs[..n];
      BoundsDomain(init, years, k);
      if exists i :: 0 <= i < |techs| && Creates(techs[i], years, k) {
        var i :| 0 <= i < |techs| && Creates(techs[i], years, k);
        if i < n {
          assert Creates(init[i], years, k);
        }
      }
      if k in Bounds(techs, years) && !Creates(techs[n], years, k) {
        var i :| 0 <= i < |init| && Creates(init[i], years, k);
        assert Creates(techs[i], years, k);
      }
    }
  }

  /** A variable's upper bound is the maximum penetration of the last row that creates it. */
  lemma {:induction false} BoundsLast(techs: seq<TechOption>, years: seq<int>, k: Key)
    requires k in Bounds(techs, years)
    ensures exists i :: LastCreator(techs, years, k, i) && Bounds(techs, years)[k] == techs[i].maxPenetration
  {
    var n := |techs| - 1;
    var init := techs[..n];
    if Creates(techs[n], years, k) {
      assert LastCreator(techs, years, k, n);
    } else {
      assert k in Bounds(init, years) && Bounds(techs, years)[k] == Bounds(init, years)[k];
      BoundsLast(init, years, k);
      var i :| LastCreator(init, years, k, i) && Bounds(init, years)[k] == init[i].maxPenetration;
      LastCreatorExtends(techs, years, k, i);
    }
  }

  /** A last creator among all rows but the last stays last when the last row does not create `k`. */
  lemma {:induction false} LastCreatorExtends(techs: seq<TechOption>, years: seq<int>, k: Key, i: int)
    requires |techs| > 0 && LastCreator(techs[..|techs| - 1], years, k, i)
    requires !Creates(techs[|techs| - 1], years, k)
    ensures LastCreator(techs, years, k, i) && techs[i] == techs[..|techs| - 1][i]
  {
    var init := techs[..|techs| - 1];
    forall j | i < j < |techs|
      ensures !Creates(techs[j], years, k)
    {
      if j < |init| {
        assert techs[j] == init[j];
      }
    }
  }

  /** The variables one row creates among the first `years`. */
  lemma {:induction false} RowBoundsStep(t: TechOption, years: seq<int>, j: nat)
    requires j < |years|
    ensures RowBounds(t, years[..j + 1]) ==
              if years[j] >= t.startYear then RowBounds(t, years[..j])[(t.techId, years[j]) := t.maxPenetration]
              else RowBounds(t, years[..j])
  {
    assert forall y :: y in years[..j + 1] <==> y in years[..j] || y == years[j];
  }

  /** Updating a union updates its right operand. */
  lemma {:induction false} UnionUpdate<K, V>(a: map<K, V>, b: map<K, V>, k: K, v: V)
    ensures (a + b)[k := v] == a + b[k := v]
  {
  }

  /** The inner loop over the years for one technology row. */
  method AddRowVariables(vars0: map<Key, real>, t: TechOption, years: seq<int>) returns (vars: map<Key, real>)
    ensures vars == vars0 + RowBounds(t, years)
  {
    vars := vars0;
    for j := 0 to |years|
      invariant vars == vars0 + RowBounds(t, years[..j])
    {
      RowBoundsStep(t, years, j);
      if years[j] >= t.startYear {
        UnionUpdate(vars0, RowBounds(t, years[..j]), (t.techId, years[j]), t.maxPenetration);
        vars := vars[(t.techId, years[j]) := t.maxPenetration];
      }
    }
    assert years[..|years|] == years;
  }

  /** The variable-creation loops over technologies and years. */
  method CreateVariables(techs: seq<TechOption>, years: seq<int>) returns (vars: map<Key, real>)
    ensures vars == Bounds(techs, years)
  {
    vars := map[];
    for i := 0 to |techs|
      invariant vars == Bounds(techs[..i], years)
    {
      assert techs[..i + 1][..i] == techs[..i];
      vars := AddRowVariables(vars, techs[i], years);
    }
    assert techs[..|techs|] == techs;
  }

  /** The increase a ramp-up share per year allows over a gap of years. */
  function MaxIncrease(rampPerYear: real, gap: int): real
  {
    rampPerYear * gap as real
  }

  /** Allowances over consecutive gaps add up to the allowance over the whole gap; one year allows one share. */
  lemma {:induction false} MaxIncreaseAdditive(rampPerYear: real, a: int, b: int)
    ensures MaxIncrease(rampPerYear, a) + MaxIncrease(rampPerYear, b) == MaxIncrease(rampPerYear, a + b)
    ensures MaxIncrease(rampPerYear, 1) == rampPerYear
  {
  }

  /** Every variable has a value within `[0, upBound]`, and there is no other value. */
  predicate WithinBounds(bounds: map<Key, real>, d: Decision)
  {
    d.Keys == bounds.Keys && forall k :: k in d ==> 0.0 <= d[k] <= bounds[k]
  }

  // ------------------------------------------------------------ objective

  /** One row's discounted cost in one year: deployment x abatement (Mt) x USD/t x 1e6 x discount. */
  function CostTerm(t: TechOption, y: int, d: Decision): real
  {
    if y >= t.startYear && (t.techId, y) in d then
      d[(t.techId, y)] * t.abatementMt * t.costPerTon * TonnesPerMt * DiscountFactor(y)
    else 0.0
  }

  function RowObjective(t: TechOption, ys: seq<int>, d: Decision): real
  {
    if |ys| == 0 then 0.0 else RowObjective(t, ys[..|ys| - 1], d) + CostTerm(t, ys[|ys| - 1], d)
  }

  /** The objective: the discounted cost summed over every row and every year. */
  function Objective(techs: seq<TechOption>, years: seq<int>, d: Decision): real
  {
    if |techs| == 0 then 0.0 else Objective(techs[..|techs| - 1], years, d) + RowObjective(techs[|techs| - 1], years, d)
  }

  predicate NonNegativeCosts(techs: seq<TechOption>)
  {
    forall i :: 0 <= i < |techs| ==> techs[i].abatementMt >= 0.0 && techs[i].costPerTon >= 0.0
  }

  lemma {:induction false} CostTermNonNegative(t: TechOption, y: int, d: Decision)
    requires t.abatementMt >= 0.0 && t.costPerTon >= 0.0
    requires forall k :: k in d ==> d[k] >= 0.0
    ensures CostTerm(t, y, d) >= 0.0
  {
    if y >= t.startYear && (t.techId, y) in d {
      var x := d[(t.techId, y)];
      MulNonNegative(x, t.abatementMt);
      MulNonNegative(x * t.abatementMt, t.costPerTon);
      MulNonNegative(x * t.abatementMt * t.costPerTon, TonnesPerMt);
      MulNonNegative(x * t.abatementMt * t.costPerTon * TonnesPerMt, DiscountFactor(y));
    }
  }

  lemma {:induction false} RowObjectiveNonNegative(t: TechOption, ys: seq<int>, d: Decision)
    requires t.abatementMt >= 0.0 && t.costPerTon >= 0.0
    requires forall k :: k in d ==> d[k] >= 0.0
    ensures RowObjective(t, ys, d) >= 0.0
  {
    if |ys| > 0 {
      RowObjectiveNonNegative(t, ys[..|ys| - 1], d);
      CostTermNonNegative(t, ys[|ys| - 1], d);
    }
  }

  /** With non-negative costs and abatements, every decision within its bounds costs at least 0. */
  lemma {:induction false} ObjectiveNonNegative(techs: seq<TechOption>, years: seq<int>, d: Decision)
    requires NonNegativeCosts(techs)
    requires forall k :: k in d ==> d[k] >= 0.0
    ensures Objective(techs, years, d) >= 0.0
  {
    if |techs| > 0 {
      ObjectiveNonNegative(techs[..|techs| - 1], years, d);
      RowObjectiveNonNegative(techs[|techs| - 1], years, d);
    }
  }

  // ------------------------------------------------------------ abatement requirement

  /** One row's abatement (Mt) in a year: deployment x abatement potential, where the variable exists. */
  function AbatementTerm(t: TechOption, y: int, d: Decision): real
  {
    if (t.techId, y) in d then d[(t.techId, y)] * t.abatementMt else 0.0
  }

  /** The abatement of every row in one year. */
  function YearAbatement(techs: seq<TechOption>, d: Decision, y: int): real
  {
    if |techs| == 0 then 0.0 else YearAbatement(techs[..|techs| - 1], d, y) + AbatementTerm(techs[|techs| - 1], y, d)
  }

  /** `EmissionTarget_{year}`: every year's abatement reaches its requirement. */
  predicate TargetsMet(techs: seq<TechOption>, years: seq<int>, required: map<int, real>, d: Decision)
  {
    forall y :: y in years && y in required ==> YearAbatement(techs, d, y) >= required[y]
  }

  // ------------------------------------------------------------ product competition

  function ProductCount(techs: seq<TechOption>, product: string): nat
  {
    if |techs| == 0 then 0
    else ProductCount(techs[..|techs| - 1], product) + (if techs[|techs| - 1].product == product then 1 else 0)
  }

  /** A product whose technologies compete: more than one row, and not the cross-cutting group. */
  predicate Competing(techs: seq<TechOption>, product: string)
  {
    product != TransitionFill.AllProducts && ProductCount(techs, product) > 1
  }

  /** The summed deployment of one product's technologies in one year. */
  function ProductPenetration(techs: seq<TechOption>, d: Decision, product: string, y: int): real
  {
    if |techs| == 0 then 0.0
    else
      var t := techs[|techs| - 1];
      ProductPenetration(techs[..|techs| - 1], d, product, y) +
      (if t.product == product && (t.techId, y) in d then d[(t.techId, y)] else 0.0)
  }

  /** `ProductCompetition_{product}_{year}`. */
  predicate CompetitionHolds(techs: seq<TechOption>, years: seq<int>, d: Decision)
  {
    forall i, y :: 0 <= i < |techs| && y in years && Competing(techs, techs[i].product) ==>
      ProductPenetration(techs, d, techs[i].product, y) <= 1.0
  }

  /** With non-negative values a product's penetration is at least each of its rows' deployments. */
  lemma {:induction false} PenetrationAtLeastMember(techs: seq<TechOption>, d: Decision, i: nat, y: int)
    requires i < |techs| && (techs[i].techId, y) in d
    requires forall k :: k in d ==> d[k] >= 0.0
    ensures ProductPenetration(techs, d, techs[i].product, y) >= d[(techs[i].techId, y)]
  {
    var n := |techs| - 1;
    PenetrationNonNegative(techs[..n], d, techs[i].product, y);
    if i < n {
      PenetrationAtLeastMember(techs[..n], d, i, y);
    }
  }

  lemma {:induction false} PenetrationNonNegative(techs: seq<TechOption>, d: Decision, product: string, y: int)
    requires forall k :: k in d ==> d[k] >= 0.0
    ensures ProductPenetration(techs, d, product, y) >= 0.0
  {
    if |techs| > 0 {
      PenetrationNonNegative(techs[..|techs| - 1], d, product, y);
    }
  }

  /**
   * In a decision within its bounds that respects the competition cap, a
   * technology of a competing product is deployed at most fully, whatever
   * its own maximum penetration says.
   */
  lemma {:induction false} CompetitorAtMostOne(techs: seq<TechOption>, years: seq<int>, d: Decision, i: nat, y: int)
    requires WithinBounds(Bounds(techs, years), d) && CompetitionHolds(techs, years, d)
    requires i < |techs| && y in years && Competing(techs, techs[i].product) && (techs[i].techId, y) in d
    ensures d[(techs[i].techId, y)] <= 1.0
  {
    PenetrationAtLeastMember(techs, d, i, y);
  }

  // ------------------------------------------------------------ results

  /** A recorded deployment: the solved level, its abatement, and its undiscounted and discounted cost. */
  datatype Recorded = Recorded(techId: string, product: string, year: int, level: real, abatementMt: real,
                               annualCostUsd: real, discountedCostUsd: real, costPerTon: real,
                               startYear: int, trl: int)

  /** The row recorded for a level: the cost is discounted, then divided by the same factor again. */
  function RecordOf(t: TechOption, y: int, level: real): Recorded
  {
    var abatement := level * t.abatementMt;
    var df := DiscountFactor(y);
    var discounted := abatement * t.costPerTon * TonnesPerMt * df;
    Recorded(t.techId, t.product, y, level, abatement, discounted / df, discounted, t.costPerTon, t.startYear, t.trl)
  }

  /** The undiscounted cost is the abatement priced per tonne; discounting multiplies it by the year's factor. */
  lemma {:induction false} RecordCosts(t: TechOption, y: int, level: real)
    ensures var r := RecordOf(t, y, level);
            r.abatementMt == level * t.abatementMt &&
            r.annualCostUsd == r.abatementMt * t.costPerTon * TonnesPerMt &&
            r.discountedCostUsd == r.annualCostUsd * DiscountFactor(y)
  {
    DivideOut(level * t.abatementMt * t.costPerTon * TonnesPerMt, DiscountFactor(y));
  }

  lemma DivideOut(a: real, f: real)
    requires f != 0.0
    ensures a * f / f == a
  {
  }

  /** Is the variable of `t` in `y` recorded? */
  predicate Significant(t: TechOption, y: int, d: Decision)
  {
    (t.techId, y) in d && d[(t.techId, y)] > RecordThreshold
  }

  function RowResults(t: TechOption, ys: seq<int>, d: Decision): seq<Recorded>
  {
    if |ys| == 0 then []
    else
      var y := ys[|ys| - 1];
      RowResults(t, ys[..|ys| - 1], d) + (if Significant(t, y, d) then [RecordOf(t, y, d[(t.techId, y)])] else [])
  }

  /** The recorded rows, technology by technology and year by year. */
  function Results(techs: seq<TechOption>, years: seq<int>, d: Decision): seq<Recorded>
  {
    if |techs| == 0 then [] else Results(techs[..|techs| - 1], years, d) + RowResults(techs[|techs| - 1], years, d)
  }

  lemma {:induction false} RowResultsSpec(t: TechOption, ys: seq<int>, d: Decision)
    ensures forall r :: r in RowResults(t, ys, d) <==>
              exists y :: y in ys && Significant(t, y, d) && r == RecordOf(t, y, d[(t.techId, y)])
  {
    if |ys| > 0 {
      var init := ys[..|ys| - 1];
      RowResultsSpec(t, init, d);
      assert forall y :: y in ys <==> y in init || y == ys[|ys| - 1];
    }
  }

  /**
   * A row is recorded exactly when some technology row and listed year have a
   * variable whose level exceeds 0.001, and it is that variable's record.
   */
  lemma {:induction false} ResultsSpec(techs: seq<TechOption>, years: seq<int>, d: Decision)
    ensures forall r :: r in Results(techs, years, d) <==>
              exists i, y :: 0 <= i < |techs| && y in years && Significant(techs[i], y, d) &&
                             r == RecordOf(techs[i], y, d[(techs[i].techId, y)])
  {
    if |techs| > 0 {
      var n := |techs| - 1;
      ResultsSpec(techs[..n], years, d);
      RowResultsSpec(techs[n], years, d);
      forall r | r in Results(techs, years, d)
        ensures exists i, y :: 0 <= i < |techs| && y in years && Significant(techs[i], y, d) &&
                               r == RecordOf(techs[i], y, d[(techs[i].techId, y)])
      {
        if r in Results(techs[..n], years, d) {
          var i, y :| 0 <= i < n && y in years && Significant(techs[..n][i], y, d) &&
                      r == RecordOf(techs[..n][i], y, d[(techs[..n][i].techId, y)]);
          assert techs[..n][i] == techs[i];
        }
      }
      forall r | exists i, y :: 0 <= i < |techs| && y in years && Significant(techs[i], y, d) &&
                               r == RecordOf(techs[i], y, d[(techs[i].techId, y)])
        ensures r in Results(techs, years, d)
      {
        var i, y :| 0 <= i < |techs| && y in years && Significant(techs[i], y, d) &&
                    r == RecordOf(techs[i], y, d[(techs[i].techId, y)]);
        if i < n {
          assert techs[..n][i] == techs[i];
        }
      }
    }
  }

  function TotalDiscounted(rows: seq<Recorded>): real
  {
    if |rows| == 0 then 0.0 else TotalDiscounted(rows[..|rows| - 1]) + rows[|rows| - 1].discountedCostUsd
  }

  lemma {:induction false} TotalDiscountedAppend(a: seq<Recorded>, b: seq<Recorded>)
    ensures TotalDiscounted(a + b) == TotalDiscounted(a) + TotalDiscounted(b)
    decreases |b|
  {
    if |b| > 0 {
      assert (a + b)[..|a + b| - 1] == a + b[..|b| - 1];
      TotalDiscountedAppend(a, b[..|b| - 1]);
    } else {
      assert a + b == a;
    }
  }

  /** One technology row's part of the extraction loop. */
  method ExtractRow(t: TechOption, years: seq<int>, d: Decision) returns (rows: seq<Recorded>, cost: real)
    ensures rows == RowResults(t, years, d)
    ensures cost == TotalDiscounted(rows)
  {
    rows := [];
    cost := 0.0;
    for j := 0 to |years|
      invariant rows == RowResults(t, years[..j], d)
      invariant cost == TotalDiscounted(rows)
    {
      assert years[..j + 1][..j] == years[..j];
      var y := years[j];
      if (t.techId, y) in d {
        var level := d[(t.techId, y)];
        if level > RecordThreshold {
          var r := RecordOf(t, y, level);
          rows := rows + [r];
          cost := cost + r.discountedCostUsd;
        }
      }
    }
    assert years[..|years|] == years;
  }

  /**
   * The extraction loops of `solve_optimization`, given the solved values:
   * the recorded rows and the total discounted cost, which is their sum.
   */
  method ExtractResults(techs: seq<TechOption>, years: seq<int>, d: Decision) returns (rows: seq<Recorded>, totalCost: real)
    ensures rows == Results(techs, years, d)
    ensures totalCost == TotalDiscounted(rows)
  {
    rows := [];
    totalCost := 0.0;
    for i := 0 to |techs|
      invariant rows == Results(techs[..i], years, d)
      invariant totalCost == TotalDiscounted(rows)
    {
      assert techs[..i + 1][..i] == techs[..i];
      var block, cost := ExtractRow(techs[i], years, d);
      TotalDiscountedAppend(rows, block);
      rows := rows + block;
      totalCost := totalCost + cost;
    }
    assert techs[..|techs|] == techs;
  }

  /** `results_df[results_df['Year'] == year]['AbatementMtCO2'].sum()`. */
  function RecordedAbatement(rows: seq<Recorded>, y: int): real
  {
    if |rows| == 0 then 0.0
    else RecordedAbatement(rows[..|rows| - 1], y) + (if rows[|rows| - 1].year == y then rows[|rows| - 1].abatementMt else 0.0)
  }

  lemma {:induction false} RecordedAbatementAppend(a: seq<Recorded>, b: seq<Recorded>, y: int)
    ensures RecordedAbatement(a + b, y) == RecordedAbatement(a, y) + RecordedAbatement(b, y)
    decreases |b|
  {
    if |b| > 0 {
      assert (a + b)[..|a + b| - 1] == a + b[..|b| - 1];
      RecordedAbatementAppend(a, b[..|b| - 1], y);
    } else {
      assert a + b == a;
    }
  }

  predicate Distinct(ys: seq<int>)
  {
    forall i, j :: 0 <= i < j < |ys| ==> ys[i] != ys[j]
  }

  /** Every level is 0 or large enough to be recorded. */
  predicate NoNegligibleLevels(d: Decision)
  {
    forall k :: k in d ==> d[k] == 0.0 || d[k] > RecordThreshold
  }

  lemma {:induction false} RowRecordedAbatement(t: TechOption, ys: seq<int>, d: Decision, y: int)
    requires Distinct(ys) && NoNegligibleLevels(d)
    ensures RecordedAbatement(RowResults(t, ys, d), y) == if y in ys then AbatementTerm(t, y, d) else 0.0
  {
    if |ys| > 0 {
      var init := ys[..|ys| - 1];
      var last := ys[|ys| - 1];
      RowRecordedAbatement(t, init, d, y);
      var tail := if Significant(t, last, d) then [RecordOf(t, last, d[(t.techId, last)])] else [];
      RecordedAbatementAppend(RowResults(t, init, d), tail, y);
      assert y in ys <==> y in init || y == last;
      assert last !in init;
      if Significant(t, last, d) {
        assert RecordedAbatement(tail, y) == RecordedAbatement([], y) +
                 (if last == y then RecordOf(t, last, d[(t.techId, last)]).abatementMt else 0.0);
      }
    }
  }

  /**
   * When no level is negligible, the abatement the recorded rows show for a
   * listed year is the abatement the decision gives that year, so a decision
   * meeting the requirement shows it met in the recorded rows too.
   */
  lemma {:induction false} RecordedAbatementIsYearAbatement(techs: seq<TechOption>, years: seq<int>, d: Decision, y: int)
    requires Distinct(years) && NoNegligibleLevels(d) && y in years
    ensures RecordedAbatement(Results(techs, years, d), y) == YearAbatement(techs, d, y)
  {
    if |techs| > 0 {
      var n := |techs| - 1;
      RecordedAbatementIsYearAbatement(techs[..n], years, d, y);
      RecordedAbatementAppend(Results(techs[..n], years, d), RowResults(techs[n], years, d), y);
      RowRecordedAbatement(techs[n], years, d, y);
    }
  }

  /** The decision the extraction reads: each variable's solved value, or 0 when it has none. */
  function SolvedValues(bounds: map<Key, real>, solution: Decision): (d: Decision)
    ensures d.Keys == bounds.Keys
    ensures forall k :: k in d ==> d[k] == if k in solution then solution[k] else 0.0
  {
    map k | k in bounds :: if k in solution then solution[k] else 0.0
  }

  /** The columns of a recorded row the facility-transition analysis reads. */
  function AsResultRow(r: Recorded): TransitionFill.ResultRow
  {
    TransitionFill.ResultRow(r.techId, r.product, r.year, r.level, r.abatementMt, r.costPerTon)
  }

  function AsResultRows(rows: seq<Recorded>): (out: seq<TransitionFill.ResultRow>)
    ensures |out| == |rows| && forall i :: 0 <= i < |rows| ==> out[i] == AsResultRow(rows[i])
  {
    seq(|rows|, i requires 0 <= i < |rows| => AsResultRow(rows[i]))
  }
}
