/**
 * A Python dict as an association list: keys keep the order of their first
 * insertion, and storing under an existing key replaces its value in place.
 */
module OrderedMaps {

  import opened Wrappers

  type Dict<K, V> = seq<(K, V)>

  /** `list(d.keys())`. */
  function Keys<K, V>(d: Dict<K, V>): seq<K>
  {
    seq(|d|, i requires 0 <= i < |d| => d[i].0)
  }

  /** `list(d.values())`. */
  function Values<K, V>(d: Dict<K, V>): seq<V>
  {
    seq(|d|, i requires 0 <= i < |d| => d[i].1)
  }

  predicate DistinctKeys<K(==), V>(d: Dict<K, V>)
  {
    forall i, j :: 0 <= i < j < |d| ==> d[i].0 != d[j].0
  }

  /** `k in d`. */
  predicate HasKey<K(==), V>(d: Dict<K, V>, k: K)
  {
    k in Keys(d)
  }

  lemma {:induction false} KeysCons<K, V>(d: Dict<K, V>)
    requires |d| > 0
    ensures Keys(d) == [d[0].0] + Keys(d[1..])
    ensures forall k :: HasKey(d, k) <==> k == d[0].0 || HasKey(d[1..], k)
  {
    assert Keys(d) == [d[0].0] + Keys(d[1..]);
  }

  /** `d.get(k)`: the value stored under `k`, if any. */
  function Get<K(==), V>(d: Dict<K, V>, k: K): (r: Option<V>)
    ensures r.Some? <==> HasKey(d, k)
  {
    if |d| == 0 then None
    else
      KeysCons(d);
      if d[0].0 == k then Some(d[0].1)
      else Get(d[1..], k)
  }

  lemma {:induction false} GetFound<K, V>(d: Dict<K, V>, k: K)
    requires DistinctKeys(d)
    ensures forall i :: 0 <= i < |d| && d[i].0 == k ==> Get(d, k) == Some(d[i].1)
  {
    if |d| > 0 && d[0].0 != k {
      GetFound(d[1..], k);
      assert forall i :: 1 <= i < |d| ==> d[i] == d[1..][i - 1];
    }
  }

  /** `d.get(k, default)`. */
  function GetOr<K(==), V>(d: Dict<K, V>, k: K, default: V): V
  {
    Get(d, k).GetOr(default)
  }

  /** `d.get(k, default)` for the key of the `i`-th pair of a dict with distinct keys. */
  lemma {:induction false} GetOrAt<K, V>(d: Dict<K, V>, i: nat, default: V)
    requires DistinctKeys(d) && i < |d|
    ensures GetOr(d, d[i].0, default) == d[i].1
  {
    GetFound(d, d[i].0);
  }

  /** `d[k] = v`. */
  function Put<K(==), V>(d: Dict<K, V>, k: K, v: V): (r: Dict<K, V>)
    ensures |r| == if HasKey(d, k) then |d| else |d| + 1
  {
    if |d| == 0 then [(k, v)]
    else
      KeysCons(d);
      if d[0].0 == k then [(k, v)] + d[1..]
      else [d[0]] + Put(d[1..], k, v)
  }

  lemma {:induction false} PutGet<K, V>(d: Dict<K, V>, k: K, v: V, j: K)
    ensures Get(Put(d, k, v), j) == if j == k then Some(v) else Get(d, j)
  {
    if |d| > 0 && d[0].0 != k {
      PutGet(d[1..], k, v, j);
    }
  }

  lemma {:induction false} PutKeys<K, V>(d: Dict<K, V>, k: K, v: V)
    ensures Keys(Put(d, k, v)) == if HasKey(d, k) then Keys(d) else Keys(d) + [k]
  {
    if |d| > 0 {
      assert Keys(d) == [d[0].0] + Keys(d[1..]);
      if d[0].0 != k {
        PutKeys(d[1..], k, v);
        assert Keys(Put(d, k, v)) == [d[0].0] + Keys(Put(d[1..], k, v));
      } else {
        assert Keys(Put(d, k, v)) == [k] + Keys(d[1..]);
      }
    }
  }

  /** After `d[k] = v` the keys are the old ones and `k`. */
  lemma {:induction false} PutHasKey<K, V>(d: Dict<K, V>, k: K, v: V)
    ensures forall j :: HasKey(Put(d, k, v), j) <==> j == k || HasKey(d, j)
  {
    PutKeys(d, k, v);
  }

  /** Every pair of `d[k] = v` is the new pair or an old one. */
  lemma {:induction false} PutElements<K, V>(d: Dict<K, V>, k: K, v: V)
    ensures forall p :: p in Put(d, k, v) ==> p == (k, v) || p in d
  {
    if |d| > 0 && d[0].0 != k {
      PutElements(d[1..], k, v);
      assert forall p :: p in d[1..] ==> p in d;
    } else if |d| > 0 {
      assert forall p :: p in d[1..] ==> p in d;
    }
  }

  lemma {:induction false} PutDistinct<K, V>(d: Dict<K, V>, k: K, v: V)
    requires DistinctKeys(d)
    ensures DistinctKeys(Put(d, k, v))
  {
    var r := Put(d, k, v);
    PutKeys(d, k, v);
    assert Keys(r) == if HasKey(d, k) then Keys(d) else Keys(d) + [k];
    forall i, j | 0 <= i < j < |r|
      ensures r[i].0 != r[j].0
    {
      assert Keys(r)[i] == r[i].0 && Keys(r)[j] == r[j].0;
      if !HasKey(d, k) && j == |d| {
        assert Keys(r)[i] == Keys(d)[i];
      } else {
        assert Keys(r)[i] == Keys(d)[i] && Keys(r)[j] == Keys(d)[j];
      }
    }
  }

  /** The value found under a present key is stored as a pair of the dict. */
  lemma {:induction false} GetIsPair<K, V>(d: Dict<K, V>, k: K)
    requires HasKey(d, k)
    ensures (k, Get(d, k).value) in d
  {
    KeysCons(d);
    if d[0].0 != k {
      GetIsPair(d[1..], k);
    }
  }

  /** Storing twice under one key keeps the second value, in the first one's place. */
  lemma {:induction false} PutTwice<K, V>(d: Dict<K, V>, k: K, v1: V, v2: V)
    ensures Put(Put(d, k, v1), k, v2) == Put(d, k, v2)
  {
    if |d| > 0 && d[0].0 != k {
      PutTwice(d[1..], k, v1, v2);
    }
  }

  /** The value of the last pair with key `k`: what `dict(pairs)` keeps. */
  function LastWith<K(==), V>(ps: seq<(K, V)>, k: K): Option<V>
  {
    if |ps| == 0 then None
    else if ps[|ps| - 1].0 == k then Some(ps[|ps| - 1].1)
    else LastWith(ps[..|ps| - 1], k)
  }

  /** `dict(pairs)` / `{k: v for k, v in pairs}`. */
  function FromPairs<K(==), V>(ps: seq<(K, V)>): (d: Dict<K, V>)
  {
    if |ps| == 0 then [] else Put(FromPairs(ps[..|ps| - 1]), ps[|ps| - 1].0, ps[|ps| - 1].1)
  }

  lemma {:induction false} FromPairsGet<K, V>(ps: seq<(K, V)>, k: K)
    ensures Get(FromPairs(ps), k) == LastWith(ps, k)
  {
    if |ps| > 0 {
      FromPairsGet(ps[..|ps| - 1], k);
      PutGet(FromPairs(ps[..|ps| - 1]), ps[|ps| - 1].0, ps[|ps| - 1].1, k);
    }
  }

  lemma {:induction false} FromPairsDistinct<K, V>(ps: seq<(K, V)>)
    ensures DistinctKeys(FromPairs(ps))
  {
    if |ps| > 0 {
      FromPairsDistinct(ps[..|ps| - 1]);
      PutDistinct(FromPairs(ps[..|ps| - 1]), ps[|ps| - 1].0, ps[|ps| - 1].1);
    }
  }
}
