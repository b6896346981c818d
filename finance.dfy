/**
 * Shared money arithmetic: the capital recovery factor, discount factors, the
 * levelised cost of abatement and the ramp-limited deployment cap, each as
 * Python evaluates it (a zero divisor is a ZeroDivisionError, `inf` is
 * `ExtReal.Infinite`).
 */
module Finance {

  import opened Wrappers
  import opened Reals

  /** `r / (1 - (1 + r) ** -life)`; the two ways Python divides by zero become Err. */
  function Crf(rate: real, life: int): (c: Result<real>)
    ensures c.Err? ==> c.error == ZeroDivisionError
  {
    match IntPow(1.0 + rate, -life)
    case None => Err(ZeroDivisionError)
    case Some(p) => if 1.0 - p == 0.0 then Err(ZeroDivisionError) else Ok(rate / (1.0 - p))
  }

  lemma {:induction false} PowOne(n: nat)
    ensures Pow(1.0, n) == 1.0
  {
    if n > 0 {
      PowOne(n - 1);
    }
  }

  /** At a zero rate the annuity formula divides by zero, whatever the lifetime. */
  lemma {:induction false} CrfZeroRate(life: int)
    ensures Crf(0.0, life) == Err(ZeroDivisionError)
  {
    if life <= 0 {
      PowOne(-life);
    } else {
      PowOne(life);
    }
  }

  /** Present value of 1 paid at the end of each of `n` years: sum of (1+r)^-k for k = 1..n. */
  function AnnuityFactor(rate: real, n: nat): real
    requires rate > -1.0
  {
    if n == 0 then 0.0
    else
      PowPositive(1.0 + rate, n);
      AnnuityFactor(rate, n - 1) + 1.0 / Pow(1.0 + rate, n)
  }

  /** r times the annuity factor is 1 - (1+r)^-n. */
  lemma {:induction false} AnnuityClosedForm(rate: real, n: nat)
    requires rate > -1.0
    ensures Pow(1.0 + rate, n) > 0.0 && rate * AnnuityFactor(rate, n) == 1.0 - 1.0 / Pow(1.0 + rate, n)
  {
    PowPositive(1.0 + rate, n);
    if n > 0 {
      AnnuityClosedForm(rate, n - 1);
      PowPositive(1.0 + rate, n - 1);
      var q := Pow(1.0 + rate, n - 1);
      var p := Pow(1.0 + rate, n);
      assert p == (1.0 + rate) * q;
      assert 1.0 / q == (1.0 + rate) / p;
      calc {
        rate * AnnuityFactor(rate, n);
        rate * AnnuityFactor(rate, n - 1) + rate / p;
        1.0 - (1.0 + rate) / p + rate / p;
        1.0 - 1.0 / p;
      }
    }
  }

  lemma {:induction false} AnnuityFactorAtMost(rate: real, n: nat)
    requires rate >= 0.0
    ensures 0.0 <= AnnuityFactor(rate, n) <= n as real
  {
    if n > 0 {
      AnnuityFactorAtMost(rate, n - 1);
      PowAtLeastOne(1.0 + rate, n);
      var p := Pow(1.0 + rate, n);
      assert 0.0 < 1.0 / p <= 1.0;
    }
  }

  /**
   * For a positive rate and a lifetime of at least a year the factor exists,
   * repays exactly one unit of capital over the lifetime (CRF times the
   * annuity factor is 1), exceeds the rate and is at least straight-line 1/life.
   */
  lemma {:induction false} CrfAnnuity(rate: real, life: int)
    requires rate > 0.0 && life >= 1
    ensures Crf(rate, life).Ok?
    ensures Crf(rate, life).value * AnnuityFactor(rate, life) == 1.0
    ensures Crf(rate, life).value > rate
    ensures Crf(rate, life).value >= 1.0 / life as real
  {
    var d := CrfPositiveRate(rate, life);
    AnnuityClosedForm(rate, life);
    AnnuityFactorAtMost(rate, life);
    RepaymentFromClosedForm(rate, AnnuityFactor(rate, life), d, life as real);
  }

  /** For r > 0 and life >= 1 the denominator d = 1 - (1+r)^-life lies strictly between 0 and 1. */
  lemma {:induction false} CrfPositiveRate(rate: real, life: int) returns (d: real)
    requires rate > 0.0 && life >= 1
    ensures Pow(1.0 + rate, life) > 1.0 && d == 1.0 - 1.0 / Pow(1.0 + rate, life)
    ensures 0.0 < d < 1.0
    ensures Crf(rate, life) == Ok(rate / d)
  {
    PowGreaterThanOne(1.0 + rate, life);
    var p := Pow(1.0 + rate, life);
    ReciprocalBelowOne(p);
    d := 1.0 - 1.0 / p;
    assert IntPow(1.0 + rate, -life) == Some(1.0 / p);
  }

  lemma {:induction false} ReciprocalBelowOne(p: real)
    requires p > 1.0
    ensures 0.0 < 1.0 / p < 1.0
  {
  }

  /** The arithmetic behind CrfAnnuity: from r*a = d with 0 < d < 1 and a <= n. */
  lemma {:induction false} RepaymentFromClosedForm(rate: real, a: real, d: real, n: real)
    requires rate > 0.0 && 0.0 < d < 1.0 && rate * a == d && a <= n
    ensures (rate / d) * a == 1.0
    ensures rate / d > rate
    ensures n > 0.0 && rate / d >= 1.0 / n
  {
    var c := rate / d;
    assert c * d == rate;
    assert c * a * d == rate * a;
    assert c * a == 1.0;
    assert c > rate by {
      assert c * d == rate && d < 1.0;
    }
    assert a > 0.0;
    assert c * n >= c * a;
    assert (1.0 / n) * n == 1.0;
  }

  /** `1 / (1 + r) ** (year - base)`; `0.0 ** k` divides by zero unless k is 0. */
  function DiscountFactor(rate: real, year: int, base: int): (r: Result<real>)
    ensures r.Err? <==> 1.0 + rate == 0.0 && year != base
    ensures r.Err? ==> r.error == ZeroDivisionError
  {
    IntPowZero(1.0 + rate, year - base);
    match IntPow(1.0 + rate, year - base)
    case None => Err(ZeroDivisionError)
    case Some(p) => if p == 0.0 then Err(ZeroDivisionError) else Ok(1.0 / p)
  }

  /** The discount factor of every year, or the first year whose power divides by zero. */
  function DiscountFactors(years: seq<int>, rate: real, base: int): (r: Result<map<int, real>>)
    ensures r.Err? <==> exists t :: t in years && DiscountFactor(rate, t, base).Err?
    ensures r.Err? ==> r.error == ZeroDivisionError
    ensures r.Ok? ==> forall t :: t in years ==> t in r.value && Ok(r.value[t]) == DiscountFactor(rate, t, base)
  {
    if |years| == 0 then Ok(map[])
    else
      var init := years[..|years| - 1];
      var t := years[|years| - 1];
      assert forall y :: y in years <==> y in init || y == t;
      match DiscountFactors(init, rate, base)
      case Err(e) => Err(e)
      case Ok(df) =>
        match DiscountFactor(rate, t, base)
        case Err(e) => Err(e)
        case Ok(f) => Ok(df[t := f])
  }

  /** The factor is exactly 1 in the base year. */
  lemma {:induction false} DiscountAtBase(rate: real, base: int)
    requires 1.0 + rate != 0.0
    ensures DiscountFactor(rate, base, base) == Ok(1.0)
  {
  }

  /** With a positive rate, factors fall strictly from 1 as the year moves past the base. */
  lemma {:induction false} DiscountDecreasing(rate: real, base: int, y1: int, y2: int)
    requires rate > 0.0 && base <= y1 < y2
    ensures DiscountFactor(rate, y1, base).Ok? && DiscountFactor(rate, y2, base).Ok?
    ensures 0.0 < DiscountFactor(rate, y2, base).value < DiscountFactor(rate, y1, base).value <= 1.0
  {
    var x := 1.0 + rate;
    PowAtLeastOne(x, y1 - base);
    PowGreaterThanOne(x, y2 - y1);
    PowAdd(x, y1 - base, y2 - y1);
    var p1 := Pow(x, y1 - base);
    var p2 := Pow(x, y2 - base);
    assert p2 == p1 * Pow(x, y2 - y1);
    assert p2 > p1;
    assert 1.0 / p2 < 1.0 / p1;
  }

  /**
   * Levelised cost of abatement in USD per t CO2: `inf` without positive
   * abatement, else the annualised capital (per t, hence /1000) plus the
   * operating delta, divided by the abatement per t.
   */
  function LevelizedCost(capexUsdPerKt: real, opexDeltaUsdPerT: real, abatement: real, rate: real, life: int): (r: Result<ExtReal>)
    ensures abatement <= 0.0 ==> r == Ok(Infinite)
    ensures abatement > 0.0 && Crf(rate, life).Err? ==> r == Err(ZeroDivisionError)
    ensures abatement > 0.0 && Crf(rate, life).Ok? ==>
              r.Ok? && r.value.Finite? &&
              r.value.v * abatement == capexUsdPerKt * Crf(rate, life).value / 1000.0 + opexDeltaUsdPerT
  {
    if abatement <= 0.0 then Ok(Infinite)
    else
      match Crf(rate, life)
      case Err(e) => Err(e)
      case Ok(crf) => Ok(Finite((capexUsdPerKt * crf / 1000.0 + opexDeltaUsdPerT) / abatement))
  }

  /** With positive abatement the cost is within a threshold iff the annual cost per t is within threshold times the abatement. */
  lemma {:induction false} LevelizedCostWithin(capexUsdPerKt: real, opexDeltaUsdPerT: real, abatement: real, rate: real, life: int, threshold: real)
    requires abatement > 0.0 && Crf(rate, life).Ok?
    ensures AtMost(LevelizedCost(capexUsdPerKt, opexDeltaUsdPerT, abatement, rate, life).value, threshold)
            <==> capexUsdPerKt * Crf(rate, life).value / 1000.0 + opexDeltaUsdPerT <= threshold * abatement
  {
    var v := LevelizedCost(capexUsdPerKt, opexDeltaUsdPerT, abatement, rate, life).value.v;
    var cost := capexUsdPerKt * Crf(rate, life).value / 1000.0 + opexDeltaUsdPerT;
    assert v * abatement == cost;
    if v <= threshold {
      assert v * abatement <= threshold * abatement;
    }
    if cost <= threshold * abatement {
      assert v * abatement <= threshold * abatement;
    }
  }

  /**
   * Deployment allowed in `year` (kt): nothing before the start year, then the
   * smaller of the ramp-limited and the applicability-limited capacity.
   */
  function DeploymentCap(year: int, startYear: int, baseCapacity: real, rampRate: real, maxApplicability: real): (r: real)
    ensures year < startYear ==> r == 0.0
    ensures year >= startYear ==> r <= baseCapacity * maxApplicability
    ensures year >= startYear ==> r <= baseCapacity * rampRate * (year - startYear + 1) as real
    ensures year >= startYear ==> r == baseCapacity * maxApplicability || r == baseCapacity * rampRate * (year - startYear + 1) as real
  {
    if year < startYear then 0.0
    else Min(baseCapacity * rampRate * (year - startYear + 1) as real, baseCapacity * maxApplicability)
  }

  /** With non-negative capacity, ramp and applicability the cap never shrinks as years pass. */
  lemma {:induction false} DeploymentCapMonotone(y1: int, y2: int, startYear: int, baseCapacity: real, rampRate: real, maxApplicability: real)
    requires y1 <= y2
    requires baseCapacity >= 0.0 && rampRate >= 0.0 && maxApplicability >= 0.0
    ensures 0.0 <= DeploymentCap(y1, startYear, baseCapacity, rampRate, maxApplicability)
                <= DeploymentCap(y2, startYear, baseCapacity, rampRate, maxApplicability)
  {
    var br := baseCapacity * rampRate;
    MulNonNegative(baseCapacity, rampRate);
    MulNonNegative(baseCapacity, maxApplicability);
    if y1 >= startYear {
      var n1 := (y1 - startYear + 1) as real;
      var n2 := (y2 - startYear + 1) as real;
      MulNonNegative(br, n1);
      MulNonNegative(br, n2 - n1);
      assert br * n2 == br * n1 + br * (n2 - n1);
    } else if y2 >= startYear {
      MulNonNegative(br, (y2 - startYear + 1) as real);
    }
  }
}
