/**
 * Python's string comparison (code point by code point) and the ASCII part
 * of `str.lower`, plus `sorted(set(...))` of a list of names.
 */
module Strings {

  /** `a < b` on Python strings: lexicographic, a proper prefix comes first. */
  predicate Lt(a: string, b: string)
    decreases |a|
  {
    if |b| == 0 then false
    else if |a| == 0 then true
    else if a[0] != b[0] then a[0] < b[0]
    else Lt(a[1..], b[1..])
  }

  lemma {:induction false} LtIrreflexive(a: string)
    ensures !Lt(a, a)
    decreases |a|
  {
    if |a| > 0 {
      LtIrreflexive(a[1..]);
    }
  }

  lemma {:induction false} LtTransitive(a: string, b: string, c: string)
    requires Lt(a, b) && Lt(b, c)
    ensures Lt(a, c)
    decreases |a|
  {
    if |a| > 0 && a[0] == b[0] && b[0] == c[0] {
      LtTransitive(a[1..], b[1..], c[1..]);
    }
  }

  lemma {:induction false} LtTrichotomy(a: string, b: string)
    ensures a == b || Lt(a, b) || Lt(b, a)
    decreases |a|
  {
    if |a| > 0 && |b| > 0 && a[0] == b[0] {
      LtTrichotomy(a[1..], b[1..]);
      if a[1..] == b[1..] {
        assert a == [a[0]] + a[1..] && b == [b[0]] + b[1..];
      }
    }
  }

  predicate StrictlySortedStrings(s: seq<string>)
  {
    forall i, j :: 0 <= i < j < |s| ==> Lt(s[i], s[j])
  }

  /** Adds `x` to a sorted list of distinct names unless it is there already. */
  function InsertUnique(x: string, s: seq<string>): (r: seq<string>)
    ensures forall y :: y in r <==> y in s || y == x
  {
    if |s| == 0 then [x]
    else if x == s[0] then s
    else if Lt(x, s[0]) then [x] + s
    else
      assert s == [s[0]] + s[1..];
      [s[0]] + InsertUnique(x, s[1..])
  }

  lemma {:induction false} InsertUniqueSorted(x: string, s: seq<string>)
    requires StrictlySortedStrings(s)
    ensures StrictlySortedStrings(InsertUnique(x, s))
  {
    if |s| == 0 || x == s[0] {
    } else if Lt(x, s[0]) {
      var r := [x] + s;
      forall i, j | 0 <= i < j < |r|
        ensures Lt(r[i], r[j])
      {
        if i == 0 && j > 1 {
          LtTransitive(x, s[0], s[j - 1]);
        }
      }
    } else {
      LtTrichotomy(x, s[0]);
      InsertUniqueSorted(x, s[1..]);
      var tail := InsertUnique(x, s[1..]);
      var r := [s[0]] + tail;
      forall k | 0 <= k < |tail|
        ensures Lt(s[0], tail[k])
      {
        if tail[k] != x {
          assert tail[k] in s[1..];
          var m :| 0 <= m < |s[1..]| && s[1..][m] == tail[k];
          assert s[m + 1] == tail[k];
        }
      }
      forall i, j | 0 <= i < j < |r|
        ensures Lt(r[i], r[j])
      {
        if i == 0 {
          assert r[j] == tail[j - 1];
        } else {
          assert r[i] == tail[i - 1] && r[j] == tail[j - 1];
        }
      }
    }
  }

  /** `sorted(set(s))`: the distinct names of `s` in ascending order. */
  function SortedUnique(s: seq<string>): (r: seq<string>)
    ensures forall y :: y in r <==> y in s
  {
    if |s| == 0 then []
    else
      var rest := SortedUnique(s[..|s| - 1]);
      assert s == s[..|s| - 1] + [s[|s| - 1]];
      InsertUnique(s[|s| - 1], rest)
  }

  lemma {:induction false} SortedUniqueSorted(s: seq<string>)
    ensures StrictlySortedStrings(SortedUnique(s))
  {
    if |s| > 0 {
      SortedUniqueSorted(s[..|s| - 1]);
      InsertUniqueSorted(s[|s| - 1], SortedUnique(s[..|s| - 1]));
    }
  }

  /** A strictly sorted list has no repeated name. */
  lemma {:induction false} StrictlySortedDistinct(s: seq<string>)
    requires StrictlySortedStrings(s)
    ensures forall i, j :: 0 <= i < j < |s| ==> s[i] != s[j]
  {
    forall i, j | 0 <= i < j < |s|
      ensures s[i] != s[j]
    {
      LtIrreflexive(s[i]);
    }
  }

  /** `str.lower` on ASCII letters; other characters are kept. */
  function Lower(s: string): (r: string)
    ensures |r| == |s|
    ensures forall i :: 0 <= i < |s| ==> ('A' <= s[i] <= 'Z' ==> r[i] as int == s[i] as int + 32)
    ensures forall i :: 0 <= i < |s| ==> (!('A' <= s[i] <= 'Z') ==> r[i] == s[i])
  {
    seq(|s|, i requires 0 <= i < |s| => if 'A' <= s[i] <= 'Z' then (s[i] as int + 32) as char else s[i])
  }

  /** Lowercasing is idempotent: a lowercased rule type compares the same again. */
  lemma {:induction false} LowerIdempotent(s: string)
    ensures Lower(Lower(s)) == Lower(s)
  {
    var l := Lower(s);
    forall i | 0 <= i < |l|
      ensures Lower(l)[i] == l[i]
    {
      if 'A' <= s[i] <= 'Z' {
        assert !('A' <= l[i] <= 'Z');
      }
    }
  }

  predicate OccursAt(s: string, sub: string, i: int)
  {
    0 <= i <= |s| - |sub| && s[i..i + |sub|] == sub
  }

  /** `sub in s` on Python strings: `sub` occurs somewhere in `s` as a block. */
  predicate Contains(s: string, sub: string)
  {
    exists i :: 0 <= i <= |s| - |sub| && OccursAt(s, sub, i)
  }
}
