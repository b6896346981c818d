/**
 * The decision tables of the deployment LPs, indexed by technology and year,
 * and the vintaging window they share: capacity built in year tau is still in
 * service in year t while tau <= t and t - tau < lifetime.
 */
module Vintage {

  import opened Reals

  /** A parameter or decision table indexed by (technology id, year). */
  type Table = map<(string, int), real>

  /** The index set of a table over `techs` and `years`. */
  function Grid(techs: seq<string>, years: seq<int>): (g: set<(string, int)>)
    ensures forall i, t :: (i, t) in g <==> i in techs && t in years
  {
    set i, t | i in techs && t in years :: (i, t)
  }

  /** Every cell of the grid is present. */
  predicate Covers(tbl: Table, techs: seq<string>, years: seq<int>)
  {
    forall i, t :: i in techs && t in years ==> (i, t) in tbl
  }

  predicate Distinct(years: seq<int>)
  {
    forall j, k :: 0 <= j < k < |years| ==> years[j] != years[k]
  }

  /** `[tau for tau in years if tau <= t and t - tau < life]`, in the order of `years`. */
  function Alive(years: seq<int>, t: int, life: int): (alive: seq<int>)
    ensures |alive| <= |years|
    ensures forall tau :: tau in alive <==> tau in years && tau <= t && t - tau < life
    ensures Distinct(years) ==> Distinct(alive)
  {
    if |years| == 0 then []
    else
      var init := years[..|years| - 1];
      var tau := years[|years| - 1];
      var rest := Alive(init, t, life);
      assert forall x :: x in years <==> x in init || x == tau;
      assert Distinct(years) ==> Distinct(init) && tau !in init;
      if tau <= t && t - tau < life then rest + [tau] else rest
  }

  /** The entry of `tbl` at (i, tau); the cells of a covered grid are always present. */
  function At(tbl: Table, i: string, tau: int): real
  {
    if (i, tau) in tbl then tbl[(i, tau)] else 0.0
  }

  /** The entries of `tbl` for technology `i` over the years `taus`, in order. */
  function Column(tbl: Table, i: string, taus: seq<int>): (c: seq<real>)
    requires forall tau :: tau in taus ==> (i, tau) in tbl
    ensures |c| == |taus|
    ensures forall k :: 0 <= k < |taus| ==> c[k] == At(tbl, i, taus[k])
  {
    seq(|taus|, k requires 0 <= k < |taus| => var tau := taus[k]; assert tau in taus; tbl[(i, tau)])
  }

  /** The entries of `tbl` for year `t` over the technologies `techs`, in order. */
  function Row(tbl: Table, techs: seq<string>, t: int): (r: seq<real>)
    requires forall i :: i in techs ==> (i, t) in tbl
    ensures |r| == |techs|
    ensures forall k :: 0 <= k < |techs| ==> r[k] == At(tbl, techs[k], t)
  {
    seq(|techs|, k requires 0 <= k < |techs| => assert techs[k] in techs; tbl[(techs[k], t)])
  }

  /** The stock in year t: the sum of the builds of the vintages alive in t. */
  function Stock(build: Table, i: string, years: seq<int>, t: int, life: int): real
    requires forall tau :: tau in years ==> (i, tau) in build
  {
    Sum(Column(build, i, Alive(years, t, life)))
  }

  /** A stock whose alive vintages built nothing is 0. */
  lemma {:induction false} StockOfIdleWindow(build: Table, i: string, years: seq<int>, t: int, life: int)
    requires forall tau :: tau in years ==> (i, tau) in build
    requires forall tau :: tau in Alive(years, t, life) ==> build[(i, tau)] == 0.0
    ensures Stock(build, i, years, t, life) == 0.0
  {
    var alive := Alive(years, t, life);
    var c := Column(build, i, alive);
    forall k | 0 <= k < |c|
      ensures c[k] == 0.0
    {
      assert alive[k] in alive;
    }
    SumAllZero(c);
  }

  /** Builds of at most `rate` a year give a stock of at most `rate` per alive vintage. */
  lemma {:induction false} StockAtMostRate(build: Table, i: string, years: seq<int>, t: int, life: int, rate: real)
    requires forall tau :: tau in years ==> (i, tau) in build
    requires forall tau :: tau in Alive(years, t, life) ==> 0.0 <= build[(i, tau)] <= rate
    ensures 0.0 <= Stock(build, i, years, t, life) <= rate * |Alive(years, t, life)| as real
  {
    ColumnWithin(build, i, Alive(years, t, life), 0.0, rate);
  }

  /**
   * With every build within [0, rate], the stock of a modelled year is at
   * most `rate` per alive vintage and, the years being distinct, at most
   * `rate * life`.
   */
  lemma {:induction false} StockBoundedByRate(build: Table, i: string, years: seq<int>, t: int, life: int, rate: real)
    requires forall tau :: tau in years ==> (i, tau) in build && 0.0 <= build[(i, tau)] <= rate
    requires t in years
    ensures Stock(build, i, years, t, life) <= rate * |Alive(years, t, life)| as real
    ensures Distinct(years) && life >= 0 ==> Stock(build, i, years, t, life) <= rate * life as real
  {
    var n := |Alive(years, t, life)|;
    StockAtMostRate(build, i, years, t, life, rate);
    assert 0.0 <= build[(i, t)] <= rate;
    if Distinct(years) && life >= 0 {
      AliveAtMostLife(years, t, life);
      ScaleByCount(Stock(build, i, years, t, life), rate, n, life);
    }
  }

  lemma {:induction false} ScaleByCount(x: real, c: real, a: int, b: int)
    requires x <= c * a as real && c >= 0.0 && a <= b
    ensures x <= c * b as real
  {
    MulNonNegative(c, (b - a) as real);
  }

  /** A column whose entries lie in [lo, hi] sums to between lo and hi times its length. */
  lemma {:induction false} ColumnWithin(tbl: Table, i: string, taus: seq<int>, lo: real, hi: real)
    requires forall tau :: tau in taus ==> (i, tau) in tbl && lo <= tbl[(i, tau)] <= hi
    ensures lo * |taus| as real <= Sum(Column(tbl, i, taus)) <= hi * |taus| as real
  {
    var c := Column(tbl, i, taus);
    forall k | 0 <= k < |c|
      ensures lo <= c[k] <= hi
    {
      assert taus[k] in taus;
    }
    SumWithin(c, lo, hi);
  }

  /** With distinct years, at most `life` vintages are alive in any year. */
  lemma {:induction false} AliveAtMostLife(years: seq<int>, t: int, life: int)
    requires Distinct(years) && life >= 0
    ensures |Alive(years, t, life)| <= life
  {
    var alive := Alive(years, t, life);
    DistinctWithin(alive, t - life + 1, t);
  }

  /** A list of distinct integers inside [lo, hi] has at most hi - lo + 1 elements. */
  lemma {:induction false} DistinctWithin(s: seq<int>, lo: int, hi: int)
    requires Distinct(s)
    requires forall x :: x in s ==> lo <= x <= hi
    ensures |s| <= if hi < lo then 0 else hi - lo + 1
    decreases hi - lo
  {
    if |s| > 0 {
      assert s[0] in s;
      var rest := Without(s, hi);
      DistinctWithin(rest, lo, hi - 1);
    }
  }

  /** `s` with the element `x` removed; distinct lists lose at most one element. */
  function Without(s: seq<int>, x: int): (r: seq<int>)
    ensures forall y :: y in r <==> y in s && y != x
    ensures Distinct(s) ==> Distinct(r) && |r| >= |s| - 1
    ensures x !in s ==> r == s
  {
    if |s| == 0 then []
    else
      var init := s[..|s| - 1];
      var last := s[|s| - 1];
      var rest := Without(init, x);
      assert forall y :: y in s <==> y in init || y == last;
      assert Distinct(s) ==> Distinct(init) && last !in init;
      if last == x then
        rest
      else rest + [last]
  }
}
