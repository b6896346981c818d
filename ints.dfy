/** Integer sequences and sets: ordering, extrema and filters over years. */
module Ints {

  predicate Sorted(s: seq<int>)
  {
    forall i, j :: 0 <= i < j < |s| ==> s[i] <= s[j]
  }

  predicate StrictlySorted(s: seq<int>)
  {
    forall i, j :: 0 <= i < j < |s| ==> s[i] < s[j]
  }

  /** `max(s)` of a non-empty list. */
  function MaxInt(s: seq<int>): (r: int)
    requires |s| > 0
    ensures r in s
    ensures forall x :: x in s ==> x <= r
  {
    if |s| == 1 then s[0]
    else
      var m := MaxInt(s[..|s| - 1]);
      assert forall x :: x in s ==> x in s[..|s| - 1] || x == s[|s| - 1];
      if s[|s| - 1] > m then s[|s| - 1] else m
  }

  /** `min(s)` of a non-empty list. */
  function MinInt(s: seq<int>): (r: int)
    requires |s| > 0
    ensures r in s
    ensures forall x :: x in s ==> r <= x
  {
    if |s| == 1 then s[0]
    else
      var m := MinInt(s[..|s| - 1]);
      assert forall x :: x in s ==> x in s[..|s| - 1] || x == s[|s| - 1];
      if s[|s| - 1] < m then s[|s| - 1] else m
  }

  /** `[y for y in s if y <= bound]`. */
  function NotAbove(s: seq<int>, bound: int): (r: seq<int>)
    ensures forall x :: x in r <==> x in s && x <= bound
    ensures |r| <= |s|
  {
    if |s| == 0 then []
    else
      var rest := NotAbove(s[..|s| - 1], bound);
      assert forall x :: x in s <==> x in s[..|s| - 1] || x == s[|s| - 1];
      if s[|s| - 1] <= bound then rest + [s[|s| - 1]] else rest
  }

  /** `[y for y in s if y >= bound]`. */
  function NotBelow(s: seq<int>, bound: int): (r: seq<int>)
    ensures forall x :: x in r <==> x in s && x >= bound
    ensures |r| <= |s|
  {
    if |s| == 0 then []
    else
      var rest := NotBelow(s[..|s| - 1], bound);
      assert forall x :: x in s <==> x in s[..|s| - 1] || x == s[|s| - 1];
      if s[|s| - 1] >= bound then rest + [s[|s| - 1]] else rest
  }

  lemma {:induction false} Pick(s: set<int>) returns (x: int)
    requires s != {}
    ensures x in s
  {
    if forall y :: y !in s {
      assert false;
    }
    x :| x in s;
  }

  lemma {:induction false} SetHasMin(s: set<int>)
    requires s != {}
    ensures exists m :: m in s && forall k :: k in s ==> m <= k
  {
    var x := Pick(s);
    if s != {x} {
      SetHasMin(s - {x});
      var m :| m in s - {x} && forall k :: k in s - {x} ==> m <= k;
      var r := if x < m then x else m;
      forall k | k in s
        ensures r <= k
      {
        if k != x { assert k in s - {x}; }
      }
      assert r in s;
    } else {
      assert forall k :: k in s ==> x <= k;
    }
  }

  lemma {:induction false} SetHasMax(s: set<int>)
    requires s != {}
    ensures exists m :: m in s && forall k :: k in s ==> k <= m
  {
    var x := Pick(s);
    if s != {x} {
      SetHasMax(s - {x});
      var m :| m in s - {x} && forall k :: k in s - {x} ==> k <= m;
      var r := if x > m then x else m;
      forall k | k in s
        ensures k <= r
      {
        if k != x { assert k in s - {x}; }
      }
      assert r in s;
    } else {
      assert forall k :: k in s ==> k <= x;
    }
  }

  /** The smallest element of a finite non-empty set. */
  ghost function SetMin(s: set<int>): (m: int)
    requires s != {}
    ensures m in s && forall k :: k in s ==> m <= k
  {
    SetHasMin(s);
    var m :| m in s && forall k :: k in s ==> m <= k; m
  }

  /** The largest element of a finite non-empty set. */
  ghost function SetMax(s: set<int>): (m: int)
    requires s != {}
    ensures m in s && forall k :: k in s ==> k <= m
  {
    SetHasMax(s);
    var m :| m in s && forall k :: k in s ==> k <= m; m
  }

  /** The largest key not above `bound`. */
  ghost function MaxKeyAtMost(keys: set<int>, bound: int): (m: int)
    requires exists k :: k in keys && k <= bound
    ensures m in keys && m <= bound
    ensures forall k :: k in keys && k <= bound ==> k <= m
  {
    var w :| w in keys && w <= bound;
    var below := set k | k in keys && k <= bound;
    assert w in below;
    assert forall k :: k in keys && k <= bound ==> k in below;
    SetMax(below)
  }

  /** The smallest key not below `bound`. */
  ghost function MinKeyAtLeast(keys: set<int>, bound: int): (m: int)
    requires exists k :: k in keys && k >= bound
    ensures m in keys && m >= bound
    ensures forall k :: k in keys && k >= bound ==> m <= k
  {
    var w :| w in keys && w >= bound;
    var above := set k | k in keys && k >= bound;
    assert w in above;
    assert forall k :: k in keys && k >= bound ==> k in above;
    SetMin(above)
  }

  /** The first and last elements of a strictly sorted listing of a set are its extrema. */
  lemma {:induction false} SortedListingExtrema(ys: seq<int>, keys: set<int>)
    requires StrictlySorted(ys) && |ys| > 0
    requires forall y :: y in ys <==> y in keys
    ensures keys != {}
    ensures ys[0] == SetMin(keys) && ys[|ys| - 1] == SetMax(keys)
  {
    assert ys[0] in ys;
    forall k | k in keys
      ensures ys[0] <= k <= ys[|ys| - 1]
    {
      var j :| 0 <= j < |ys| && ys[j] == k;
      if j > 0 { assert ys[0] < ys[j]; }
      if j < |ys| - 1 { assert ys[j] < ys[|ys| - 1]; }
    }
    assert ys[|ys| - 1] in ys;
  }

  /** Filtering a listing of a set and taking extrema agrees with the set's own extrema. */
  lemma {:induction false} SortedListingBrackets(ys: seq<int>, keys: set<int>, year: int)
    requires forall y :: y in ys <==> y in keys
    requires |ys| > 0 && ys[0] <= year <= ys[|ys| - 1]
    ensures ys[0] in keys && ys[|ys| - 1] in keys
    ensures |NotAbove(ys, year)| > 0 && |NotBelow(ys, year)| > 0
    ensures MaxInt(NotAbove(ys, year)) == MaxKeyAtMost(keys, year)
    ensures MinInt(NotBelow(ys, year)) == MinKeyAtLeast(keys, year)
  {
    assert ys[0] in ys && ys[|ys| - 1] in ys;
    assert ys[0] in NotAbove(ys, year);
    assert ys[|ys| - 1] in NotBelow(ys, year);
    var lower := MaxInt(NotAbove(ys, year));
    var upper := MinInt(NotBelow(ys, year));
    assert MaxKeyAtMost(keys, year) in NotAbove(ys, year);
    assert MinKeyAtLeast(keys, year) in NotBelow(ys, year);
  }

  /** The years of a finite set in increasing order: the one strictly sorted listing of it. */
  ghost function SortedYears(keys: set<int>): (ys: seq<int>)
    ensures StrictlySorted(ys)
    ensures forall y :: y in ys <==> y in keys
    decreases |keys|
  {
    if keys == {} then []
    else
      var m := SetMin(keys);
      var rest := SortedYears(keys - {m});
      assert forall k :: k in rest ==> m < k;
      [m] + rest
  }

  /** A strictly sorted list has as many elements as the set of its years. */
  lemma {:induction false} ListingCardinality(a: seq<int>)
    requires StrictlySorted(a)
    ensures |set y | y in a| == |a|
  {
    if |a| > 0 {
      ListingCardinality(a[1..]);
      assert (set y | y in a) == {a[0]} + (set y | y in a[1..]);
      assert a[0] !in (set y | y in a[1..]);
    }
  }

  /** Two strictly sorted lists of the same years are the same list. */
  lemma {:induction false} StrictlySortedListingUnique(a: seq<int>, b: seq<int>)
    requires StrictlySorted(a) && StrictlySorted(b)
    requires forall y :: y in a <==> y in b
    ensures a == b
  {
    if |b| > 0 {
      assert b[0] in b;
    }
    if |a| > 0 {
      assert a[0] in a;
      assert a[0] in b && b[0] in a;
      assert a[0] == b[0];
      forall y
        ensures y in a[1..] <==> y in b[1..]
      {
        if y in a[1..] {
          var i :| 1 <= i < |a| && a[i] == y;
          assert y in b && y != b[0];
        }
        if y in b[1..] {
          var j :| 1 <= j < |b| && b[j] == y;
          assert y in a && y != a[0];
        }
      }
      StrictlySortedListingUnique(a[1..], b[1..]);
      assert a == [a[0]] + a[1..] && b == [b[0]] + b[1..];
    }
  }

  /** `sorted(keys)` for a set of distinct years. */
  method SortedKeys(keys: set<int>) returns (ys: seq<int>)
    ensures StrictlySorted(ys)
    ensures forall y :: y in ys <==> y in keys
  {
    ys := [];
    var rest := keys;
    while rest != {}
      invariant StrictlySorted(ys)
      invariant forall y :: y in keys <==> y in ys || y in rest
      invariant forall y :: y in ys ==> y !in rest
      invariant forall y, z :: y in ys && z in rest ==> y < z
      decreases |rest|
    {
      SetHasMin(rest);
      var m :| m in rest && forall k :: k in rest ==> m <= k;
      forall i, j | 0 <= i < j < |ys + [m]|
        ensures (ys + [m])[i] < (ys + [m])[j]
      {
        if j == |ys| {
          assert ys[i] in ys;
        }
      }
      ys := ys + [m];
      rest := rest - {m};
    }
  }

  /** `sorted(s)` of a list of years. */
  function SortInts(s: seq<int>): seq<int>
  {
    if |s| == 0 then [] else InsertInt(s[0], SortInts(s[1..]))
  }

  function InsertInt(x: int, s: seq<int>): seq<int>
  {
    if |s| == 0 then [x] else if x <= s[0] then [x] + s else [s[0]] + InsertInt(x, s[1..])
  }

  lemma {:induction false} InsertIntProperties(x: int, s: seq<int>)
    requires Sorted(s)
    ensures Sorted(InsertInt(x, s))
    ensures multiset(InsertInt(x, s)) == multiset(s) + multiset{x}
  {
    InsertIntMultiset(x, s);
    InsertIntSorted(x, s);
  }

  lemma {:induction false} InsertIntMultiset(x: int, s: seq<int>)
    ensures multiset(InsertInt(x, s)) == multiset(s) + multiset{x}
  {
    if |s| > 0 && x > s[0] {
      InsertIntMultiset(x, s[1..]);
      assert s == [s[0]] + s[1..];
    }
  }

  lemma {:induction false} InsertIntSorted(x: int, s: seq<int>)
    requires Sorted(s)
    ensures Sorted(InsertInt(x, s))
  {
    if |s| > 0 && x > s[0] {
      var tail := InsertInt(x, s[1..]);
      InsertIntSorted(x, s[1..]);
      InsertIntMultiset(x, s[1..]);
      forall k | 0 <= k < |tail|
        ensures s[0] <= tail[k]
      {
        assert tail[k] in multiset(tail);
        assert tail[k] in multiset(s[1..]) + multiset{x};
      }
      SortedCons(s[0], tail);
    }
  }

  lemma SortedCons(x: int, s: seq<int>)
    requires Sorted(s) && forall k :: 0 <= k < |s| ==> x <= s[k]
    ensures Sorted([x] + s)
  {
  }

  lemma {:induction false} SortIntsProperties(s: seq<int>)
    ensures Sorted(SortInts(s))
    ensures multiset(SortInts(s)) == multiset(s)
  {
    if |s| > 0 {
      SortIntsProperties(s[1..]);
      InsertIntProperties(s[0], SortInts(s[1..]));
      assert s == [s[0]] + s[1..];
    }
  }
}
