/**
 * `parse_links`: the `TechLinks` sheet's mutually-exclusive rows are merged
 * by a union-find over technology ids into disjoint groups, and its coupling
 * rows become ordered `(primary, secondary)` pairs.
 */
module TechLinks {

  import opened Wrappers
  import Strings

  // ---------------------------------------------------------------- the sheet

  /** A cell as `str(r.get(column, ""))` sees it: a missing column, an empty cell (`"nan"`) or text. */
  datatype Cell = Absent | NaN | Text(s: string)

  function CellText(c: Cell): string
  {
    match c
    case Absent => ""
    case NaN => "nan"
    case Text(s) => s
  }

  datatype LinkRow = LinkRow(ruleType: Cell, primary: Cell, secondary: Cell)

  /** The sheet, and whether it has a `RuleType` column at all. */
  datatype LinkSheet = LinkSheet(hasRuleType: bool, rows: seq<LinkRow>)

  function RuleOf(row: LinkRow): string
  {
    Strings.Lower(CellText(row.ruleType))
  }

  predicate IsExclusive(row: LinkRow)
  {
    RuleOf(row) == "mutuallyexclusive" && CellText(row.primary) != "" && CellText(row.secondary) != ""
  }

  predicate IsCoupling(row: LinkRow)
  {
    !IsExclusive(row) && RuleOf(row) == "coupling" && CellText(row.primary) != "" && CellText(row.secondary) != ""
  }

  function PairOf(row: LinkRow): (string, string)
  {
    (CellText(row.primary), CellText(row.secondary))
  }

  /** The `(primary, secondary)` pairs of the rows `keep` selects, in row order. */
  function PairsWhere(rows: seq<LinkRow>, keep: LinkRow -> bool): (ps: seq<(string, string)>)
    ensures |ps| <= |rows|
    ensures forall p :: p in ps <==> exists i :: 0 <= i < |rows| && keep(rows[i]) && p == PairOf(rows[i])
  {
    if |rows| == 0 then []
    else
      var rest := PairsWhere(rows[..|rows| - 1], keep);
      assert forall i :: 0 <= i < |rows| - 1 ==> rows[..|rows| - 1][i] == rows[i];
      if keep(rows[|rows| - 1]) then rest + [PairOf(rows[|rows| - 1])] else rest
  }

  function ExclusivePairs(rows: seq<LinkRow>): seq<(string, string)>
  {
    PairsWhere(rows, IsExclusive)
  }

  function Couplings(rows: seq<LinkRow>): seq<(string, string)>
  {
    PairsWhere(rows, IsCoupling)
  }

  // ---------------------------------------------------------------- reference partition

  /** Every id named by a pair. */
  ghost function Nodes<T>(pairs: seq<(T, T)>): set<T>
    decreases |pairs|
  {
    if |pairs| == 0 then {}
    else Nodes(pairs[..|pairs| - 1]) + {pairs[|pairs| - 1].0, pairs[|pairs| - 1].1}
  }

  /**
   * The ids merged with `x` once the pairs have been applied in order: each
   * pair joins the groups of its two ids.
   */
  ghost function Comp<T>(pairs: seq<(T, T)>, x: T): set<T>
    decreases |pairs|
  {
    if |pairs| == 0 then {x}
    else
      var prev := pairs[..|pairs| - 1];
      var a, b := pairs[|pairs| - 1].0, pairs[|pairs| - 1].1;
      if x in Comp(prev, a) || x in Comp(prev, b) then Comp(prev, a) + Comp(prev, b)
      else Comp(prev, x)
  }

  lemma {:induction false} CompBasics<T>(pairs: seq<(T, T)>, x: T)
    ensures x in Comp(pairs, x)
    ensures Comp(pairs, x) <= Nodes(pairs) + {x}
    ensures x !in Nodes(pairs) ==> Comp(pairs, x) == {x}
    decreases |pairs|
  {
    if |pairs| > 0 {
      var prev := pairs[..|pairs| - 1];
      var a, b := pairs[|pairs| - 1].0, pairs[|pairs| - 1].1;
      CompBasics(prev, x);
      CompBasics(prev, a);
      CompBasics(prev, b);
    }
  }

  /** Merging is an equivalence: ids in one group have the same group. */
  lemma {:induction false} CompShared<T>(pairs: seq<(T, T)>, x: T, y: T)
    requires y in Comp(pairs, x)
    ensures Comp(pairs, y) == Comp(pairs, x)
    decreases |pairs|
  {
    if |pairs| > 0 {
      var prev := pairs[..|pairs| - 1];
      var a, b := pairs[|pairs| - 1].0, pairs[|pairs| - 1].1;
      if x in Comp(prev, a) || x in Comp(prev, b) {
        if y in Comp(prev, a) {
          CompShared(prev, a, y);
        } else {
          CompShared(prev, b, y);
        }
      } else {
        CompShared(prev, x, y);
        if y in Comp(prev, a) {
          CompShared(prev, a, y);
          CompBasics(prev, x);
        } else if y in Comp(prev, b) {
          CompShared(prev, b, y);
          CompBasics(prev, x);
        }
      }
    }
  }

  /** The two ids of an applied pair end up in one group. */
  lemma {:induction false} PairMerged<T>(pairs: seq<(T, T)>, k: nat)
    requires k < |pairs|
    ensures pairs[k].1 in Comp(pairs, pairs[k].0)
  {
    var a, b := pairs[k].0, pairs[k].1;
    var pre := pairs[..k + 1];
    assert pre[..k] == pairs[..k];
    CompBasics(pairs[..k], a);
    CompBasics(pairs[..k], b);
    assert b in Comp(pre, a);
    MergedStaysMerged(pairs, k + 1, a, b);
  }

  /** Later pairs never split a group. */
  lemma {:induction false} MergedStaysMerged<T>(pairs: seq<(T, T)>, n: nat, x: T, y: T)
    requires n <= |pairs|
    requires y in Comp(pairs[..n], x)
    ensures y in Comp(pairs, x)
    decreases |pairs| - n
  {
    if n < |pairs| {
      var next := pairs[..n + 1];
      assert next[..n] == pairs[..n];
      var a, b := pairs[n].0, pairs[n].1;
      if x in Comp(pairs[..n], a) {
        CompShared(pairs[..n], a, x);
        assert y in Comp(next, x);
      } else if x in Comp(pairs[..n], b) {
        CompShared(pairs[..n], b, x);
        assert y in Comp(next, x);
      } else {
        assert Comp(next, x) == Comp(pairs[..n], x);
      }
      MergedStaysMerged(pairs, n + 1, x, y);
    } else {
      assert pairs[..n] == pairs;
    }
  }

  // ---------------------------------------------------------------- forests

  /**
   * One id's links: its parent and root are ids, its root is its own parent
   * and shares the id's root, and the ghost rank `dist` falls strictly
   * along its parent link and towards its root.
   */
  ghost predicate Linked<T>(parent: map<T, T>, root: map<T, T>, dist: map<T, nat>, x: T)
  {
    x in parent && x in root && x in dist &&
    parent[x] in parent && parent[x] in root && parent[x] in dist &&
    root[x] in parent && root[x] in dist &&
    parent[root[x]] == root[x] && root[parent[x]] == root[x] &&
    (parent[x] == x ==> root[x] == x) &&
    (parent[x] != x ==> dist[parent[x]] < dist[x]) &&
    (root[x] != x ==> dist[root[x]] < dist[x])
  }

  /** `parent` is a forest whose trees `root` names, so following parents always ends. */
  ghost predicate Forest<T>(parent: map<T, T>, root: map<T, T>, dist: map<T, nat>)
  {
    parent.Keys == root.Keys && parent.Keys == dist.Keys &&
    forall x {:trigger Linked(parent, root, dist, x)} :: x in parent ==> Linked(parent, root, dist, x)
  }

  /** A root is its own root. */
  lemma {:induction false} RootIsRoot<T>(parent: map<T, T>, root: map<T, T>, dist: map<T, nat>, x: T)
    requires Forest(parent, root, dist) && x in parent
    ensures root[x] in root && root[root[x]] == root[x]
  {
    assert Linked(parent, root, dist, x);
    assert Linked(parent, root, dist, root[x]);
  }

  /** `parent.setdefault(x, x)` for a new id adds a singleton tree. */
  lemma {:induction false} AddSingleton<T>(parent: map<T, T>, root: map<T, T>, dist: map<T, nat>, x: T)
    requires Forest(parent, root, dist) && x !in parent
    ensures Forest(parent[x := x], root[x := x], dist[x := 0])
  {
    var p, q, d := parent[x := x], root[x := x], dist[x := 0];
    forall y | y in p
      ensures Linked(p, q, d, y)
    {
      if y != x {
        assert Linked(parent, root, dist, y);
      }
    }
  }

  /** `parent[x] = find(parent[x])`: hanging `x` directly below its root keeps every tree. */
  lemma {:induction false} Compress<T>(parent: map<T, T>, root: map<T, T>, dist: map<T, nat>, x: T)
    requires Forest(parent, root, dist) && x in parent
    ensures Forest(parent[x := root[x]], root, dist)
  {
    var p := parent[x := root[x]];
    assert Linked(parent, root, dist, x);
    assert Linked(parent, root, dist, root[x]);
    forall y | y in p
      ensures Linked(p, root, dist, y)
    {
      assert Linked(parent, root, dist, y);
      assert Linked(parent, root, dist, root[y]);
    }
  }

  /** The roots after `parent[rb] = ra`: the tree of `rb` joins the tree of `ra`. */
  ghost function LinkRoot<T>(root: map<T, T>, ra: T, rb: T): (r: map<T, T>)
    ensures r.Keys == root.Keys
  {
    map z | z in root :: if root[z] == rb then ra else root[z]
  }

  /** The ranks after `parent[rb] = ra`: the tree of `rb` moves below `ra`. */
  ghost function LinkDist<T>(root: map<T, T>, dist: map<T, nat>, ra: T, rb: T): (d: map<T, nat>)
    requires ra in dist
    ensures d.Keys == dist.Keys
  {
    map z | z in dist :: if z in root && root[z] == rb then dist[z] + dist[ra] + 1 else dist[z]
  }

  lemma {:induction false} Link<T>(parent: map<T, T>, root: map<T, T>, dist: map<T, nat>, ra: T, rb: T)
    requires Forest(parent, root, dist) && ra in parent && rb in parent
    requires root[ra] == ra && root[rb] == rb && ra != rb
    ensures Forest(parent[rb := ra], LinkRoot(root, ra, rb), LinkDist(root, dist, ra, rb))
  {
    var p, q, d := parent[rb := ra], LinkRoot(root, ra, rb), LinkDist(root, dist, ra, rb);
    assert Linked(parent, root, dist, ra);
    assert Linked(parent, root, dist, rb);
    forall x | x in p
      ensures Linked(p, q, d, x)
    {
      assert Linked(parent, root, dist, x);
      assert Linked(parent, root, dist, parent[x]);
      assert Linked(parent, root, dist, root[x]);
    }
  }

  // ---------------------------------------------------------------- roots against the reference

  /** `u` and `v` share a root exactly when the pairs merge them. */
  ghost predicate Agrees<T>(root: map<T, T>, pairs: seq<(T, T)>, u: T, v: T)
  {
    u in root && v in root ==> (v in Comp(pairs, u) <==> root[v] == root[u])
  }

  /** The roots name exactly the groups the pairs define, over ids that include every paired id. */
  ghost predicate Tracks<T>(root: map<T, T>, pairs: seq<(T, T)>)
  {
    Nodes(pairs) <= root.Keys &&
    forall u, v {:trigger Agrees(root, pairs, u, v)} :: u in root && v in root ==> Agrees(root, pairs, u, v)
  }

  lemma {:induction false} TracksAddSingleton<T>(parent: map<T, T>, root: map<T, T>, dist: map<T, nat>,
                           pairs: seq<(T, T)>, x: T)
    requires Forest(parent, root, dist) && Tracks(root, pairs) && x !in root
    ensures Tracks(root[x := x], pairs)
  {
    var q := root[x := x];
    CompBasics(pairs, x);
    forall u, v | u in q && v in q
      ensures Agrees(q, pairs, u, v)
    {
      CompBasics(pairs, u);
      if u != x && v != x {
        assert Agrees(root, pairs, u, v);
      } else if u != x {
        assert Linked(parent, root, dist, u);
      } else if v != x {
        assert Linked(parent, root, dist, v);
      }
    }
  }

  /** One instance of `Tracks` after linking the roots of a new pair's ids. */
  lemma {:induction false} LinkAgreesAt<T>(root: map<T, T>, pairs: seq<(T, T)>, a: T, b: T, u: T, v: T)
    requires a in root && b in root && u in root && v in root
    requires root[a] in root && root[b] in root
    requires root[root[a]] == root[a] && root[root[b]] == root[b] && root[a] != root[b]
    requires Agrees(root, pairs, u, v)
    requires Agrees(root, pairs, a, u) && Agrees(root, pairs, b, u)
    requires Agrees(root, pairs, a, v) && Agrees(root, pairs, b, v)
    ensures Agrees(LinkRoot(root, root[a], root[b]), pairs + [(a, b)], u, v)
  {
    var next := pairs + [(a, b)];
    assert next[..|next| - 1] == pairs;
  }

  lemma {:induction false} TracksLink<T>(parent: map<T, T>, root: map<T, T>, dist: map<T, nat>,
                   pairs: seq<(T, T)>, a: T, b: T)
    requires Forest(parent, root, dist) && Tracks(root, pairs) && a in root && b in root
    requires root[a] != root[b]
    ensures Tracks(LinkRoot(root, root[a], root[b]), pairs + [(a, b)])
  {
    var q := LinkRoot(root, root[a], root[b]);
    var next := pairs + [(a, b)];
    RootIsRoot(parent, root, dist, a);
    RootIsRoot(parent, root, dist, b);
    assert next[..|next| - 1] == pairs;
    forall u, v | u in q && v in q
      ensures Agrees(q, next, u, v)
    {
      assert Agrees(root, pairs, u, v);
      assert Agrees(root, pairs, a, u) && Agrees(root, pairs, b, u);
      assert Agrees(root, pairs, a, v) && Agrees(root, pairs, b, v);
      LinkAgreesAt(root, pairs, a, b, u, v);
    }
  }

  /** A pair whose ids already share a root changes no group. */
  lemma {:induction false} TracksSameRoot<T>(root: map<T, T>, pairs: seq<(T, T)>, a: T, b: T)
    requires Tracks(root, pairs) && a in root && b in root && root[a] == root[b]
    ensures Tracks(root, pairs + [(a, b)])
  {
    var next := pairs + [(a, b)];
    assert next[..|next| - 1] == pairs;
    assert Agrees(root, pairs, a, b);
    CompShared(pairs, a, b);
    forall u | u in root
      ensures Comp(next, u) == Comp(pairs, u)
    {
      if u in Comp(pairs, a) {
        CompShared(pairs, a, u);
      }
    }
    forall u, v | u in root && v in root
      ensures Agrees(root, next, u, v)
    {
      assert Agrees(root, pairs, u, v);
    }
  }

  // ---------------------------------------------------------------- the union-find

  /** `order` lists the keys of `parent`, each once. */
  ghost predicate ListsKeys<T(!new)>(order: seq<T>, parent: map<T, T>)
  {
    (forall x {:trigger Listed(order, parent, x)} :: Listed(order, parent, x)) &&
    (forall i, j {:trigger Apart(order, i, j)} :: Apart(order, i, j))
  }

  ghost predicate Apart<T>(order: seq<T>, i: int, j: int)
  {
    0 <= i < j < |order| ==> order[i] != order[j]
  }

  ghost predicate Listed<T>(order: seq<T>, parent: map<T, T>, x: T)
  {
    x in parent <==> x in order
  }

  /** `union` linking two distinct roots keeps the forest, its key list, and the agreement with the pairs. */
  lemma {:induction false} LinkStep<T(!new)>(parent: map<T, T>, root: map<T, T>, dist: map<T, nat>,
                 pairs: seq<(T, T)>, order: seq<T>, a: T, b: T)
    requires Forest(parent, root, dist) && Tracks(root, pairs) && ListsKeys(order, parent)
    requires a in parent && b in parent && root[a] != root[b]
    ensures root[a] in parent && root[b] in parent
    ensures Forest(parent[root[b] := root[a]], LinkRoot(root, root[a], root[b]), LinkDist(root, dist, root[a], root[b]))
    ensures Tracks(LinkRoot(root, root[a], root[b]), pairs + [(a, b)])
    ensures ListsKeys(order, parent[root[b] := root[a]]) && parent[root[b] := root[a]].Keys == parent.Keys
  {
    RootIsRoot(parent, root, dist, a);
    RootIsRoot(parent, root, dist, b);
    Link(parent, root, dist, root[a], root[b]);
    TracksLink(parent, root, dist, pairs, a, b);
    ListsKeysRelink(order, parent, root[b], root[a]);
  }

  /** The keys of a dict after `setdefault(x, ...)`: `x` is appended when new. */
  function Extend<T(==)>(order: seq<T>, x: T): seq<T>
  {
    if x in order then order else order + [x]
  }

  lemma {:induction false} ListsKeysRelink<T(!new)>(order: seq<T>, parent: map<T, T>, x: T, y: T)
    requires ListsKeys(order, parent) && x in parent
    ensures ListsKeys(order, parent[x := y]) && parent[x := y].Keys == parent.Keys
  {
    var p := parent[x := y];
    forall z
      ensures Listed(order, p, z)
    {
      assert Listed(order, parent, z);
    }
  }

  lemma {:induction false} ListsKeysAppend<T(!new)>(order: seq<T>, parent: map<T, T>, x: T, y: T)
    requires ListsKeys(order, parent) && x !in parent
    ensures ListsKeys(order + [x], parent[x := y])
  {
    var o, p := order + [x], parent[x := y];
    assert Listed(order, parent, x);
    forall z
      ensures Listed(o, p, z)
    {
      assert Listed(order, parent, z);
    }
    forall i, j
      ensures Apart(o, i, j)
    {
      if 0 <= i < j < |o| {
        if j == |order| {
          assert order[i] in order;
        } else {
          assert Apart(order, i, j);
        }
      }
    }
  }

  /**
   * The `parent` dict of `parse_links`, with its keys in insertion order.
   * Ghost state: the root of every id, a rank that makes `find` terminate,
   * and the mutually-exclusive pairs applied so far.
   */
  class UnionFind<T(==,!new)> {
    var parent: map<T, T>
    var order: seq<T>
    ghost var root: map<T, T>
    ghost var dist: map<T, nat>
    ghost var pairs: seq<(T, T)>

    ghost predicate Valid()
      reads this
    {
      Forest(parent, root, dist) && Tracks(root, pairs) && ListsKeys(order, parent)
    }

    constructor ()
      ensures Valid() && parent == map[] && order == [] && pairs == []
    {
      parent := map[];
      order := [];
      root := map[];
      dist := map[];
      pairs := [];
    }

    /** `find(x)`: adds `x` as its own parent if new, then follows and compresses its path. */
    method Find(x: T) returns (r: T)
      requires Valid()
      modifies this
      ensures Valid() && pairs == old(pairs)
      ensures parent.Keys == old(parent.Keys) + {x}
      ensures order == Extend(old(order), x)
      ensures root == if x in old(parent) then old(root) else old(root)[x := x]
      ensures r == root[x]
      decreases if x in parent then dist[x] else 0
    {
      assert Listed(order, parent, x);
      if x !in parent {
        AddSingleton(parent, root, dist, x);
        TracksAddSingleton(parent, root, dist, pairs, x);
        ListsKeysAppend(order, parent, x, x);
        parent := parent[x := x];
        order := order + [x];
        root := root[x := x];
        dist := dist[x := 0];
        r := x;
        return;
      }
      assert Linked(parent, root, dist, x);
      if parent[x] != x {
        assert Listed(order, parent, parent[x]);
        var p := Find(parent[x]);
        Compress(parent, root, dist, x);
        ListsKeysRelink(order, parent, x, p);
        parent := parent[x := p];
      }
      r := parent[x];
    }

    /** `union(a, b)`: links the root of `b` below the root of `a` when they differ. */
    method Union(a: T, b: T)
      requires Valid()
      modifies this
      ensures Valid() && pairs == old(pairs) + [(a, b)]
      ensures parent.Keys == old(parent.Keys) + {a, b}
      ensures order == Extend(Extend(old(order), a), b)
    {
      var ra := Find(a);
      var rb := Find(b);
      if ra != rb {
        LinkRoots(a, b, ra, rb);
      } else {
        TracksSameRoot(root, pairs, a, b);
        pairs := pairs + [(a, b)];
      }
    }

    /** `parent[rb] = ra` for the distinct roots `ra` and `rb` of `a` and `b`. */
    method LinkRoots(a: T, b: T, ra: T, rb: T)
      requires Valid() && a in parent && b in parent && ra == root[a] && rb == root[b] && ra != rb
      modifies this
      ensures Valid() && pairs == old(pairs) + [(a, b)]
      ensures parent == old(parent)[rb := ra] && parent.Keys == old(parent.Keys)
      ensures order == old(order)
    {
      LinkStep(parent, root, dist, pairs, order, a, b);
      parent := parent[rb := ra];
      dist := LinkDist(root, dist, ra, rb);
      root := LinkRoot(root, ra, rb);
      pairs := pairs + [(a, b)];
    }
  }

  // ---------------------------------------------------------------- parse_links

  /** `[v for v in sets.values() if len(v) > 1]`. */
  function BigGroups<T(!new)>(roots: seq<T>, sets: map<T, set<T>>): (gs: seq<set<T>>)
    requires forall r :: r in roots ==> r in sets
    ensures forall g :: g in gs <==> exists r :: r in roots && g == sets[r] && |sets[r]| > 1
  {
    if |roots| == 0 then []
    else
      var rest := BigGroups(roots[..|roots| - 1], sets);
      var r := roots[|roots| - 1];
      assert forall x :: x in roots <==> x in roots[..|roots| - 1] || x == r;
      if |sets[r]| > 1 then rest + [sets[r]] else rest
  }

  /** No element occurs twice. */
  predicate NoRepeats<T(==)>(s: seq<T>)
  {
    forall i, j :: 0 <= i < j < |s| ==> s[i] != s[j]
  }

  lemma {:induction false} BigGroupsDistinct<T(!new)>(roots: seq<T>, sets: map<T, set<T>>)
    requires forall r :: r in roots ==> r in sets && sets[r] != {}
    requires NoRepeats(roots)
    requires forall r1, r2 :: r1 in roots && r2 in roots && r1 != r2 ==> sets[r1] !! sets[r2]
    ensures NoRepeats(BigGroups(roots, sets))
  {
    if |roots| > 0 {
      var init := roots[..|roots| - 1];
      var r := roots[|roots| - 1];
      assert forall k :: 0 <= k < |init| ==> init[k] == roots[k];
      BigGroupsDistinct(init, sets);
      var rest := BigGroups(init, sets);
      var gs := BigGroups(roots, sets);
      if |sets[r]| > 1 {
        assert gs == rest + [sets[r]];
        forall i | 0 <= i < |rest|
          ensures rest[i] != sets[r]
        {
          assert rest[i] in rest;
          var r' :| r' in init && rest[i] == sets[r'] && |sets[r']| > 1;
          var k :| 0 <= k < |init| && init[k] == r';
          assert roots[k] == r';
        }
        forall i, j | 0 <= i < j < |gs|
          ensures gs[i] != gs[j]
        {
          assert gs[i] == rest[i];
          if j < |rest| {
            assert gs[j] == rest[j];
          } else {
            assert gs[j] == sets[r];
          }
        }
      } else {
        assert gs == rest;
      }
    }
  }

  /** The union-find built from the rows, and the couplings collected on the way. */
  method ApplyRows(rows: seq<LinkRow>) returns (uf: UnionFind<string>, depends: seq<(string, string)>)
    ensures fresh(uf) && uf.Valid()
    ensures uf.pairs == ExclusivePairs(rows)
    ensures uf.parent.Keys == Nodes(ExclusivePairs(rows))
    ensures depends == Couplings(rows)
  {
    uf := new UnionFind<string>();
    depends := [];
    var n := 0;
    while n < |rows|
      invariant 0 <= n <= |rows|
      invariant uf.Valid() && uf.pairs == ExclusivePairs(rows[..n])
      invariant uf.parent.Keys == Nodes(ExclusivePairs(rows[..n]))
      invariant depends == Couplings(rows[..n])
      modifies uf
    {
      var row := rows[n];
      assert rows[..n + 1][..n] == rows[..n];
      var rt := Strings.Lower(CellText(row.ruleType));
      var a, b := CellText(row.primary), CellText(row.secondary);
      if rt == "mutuallyexclusive" && a != "" && b != "" {
        uf.Union(a, b);
      } else if rt == "coupling" && a != "" && b != "" {
        depends := depends + [(a, b)];
      }
      n := n + 1;
    }
    assert rows[..n] == rows;
  }

  /** The grouping loop after the first `i` keys: `sets` maps each root met so far to its keys met so far. */
  ghost predicate GroupedUpTo<T(!new)>(root: map<T, T>, keys: seq<T>, i: int, roots: seq<T>, sets: map<T, set<T>>)
  {
    0 <= i <= |keys| && NoRepeats(roots) &&
    (forall r :: r in sets <==> r in roots) &&
    (forall r :: r in sets ==> r in root && root[r] == r && sets[r] != {}) &&
    (forall r, y :: r in sets ==> (y in sets[r] <==> y in keys[..i] && y in root && root[y] == r)) &&
    (forall j :: 0 <= j < i ==> keys[j] in root && root[keys[j]] in sets)
  }

  /** One step of `sets.setdefault(rx, set()).add(x)`. */
  lemma {:induction false} GroupedStep<T(!new)>(root: map<T, T>, keys: seq<T>, i: int, roots: seq<T>, sets: map<T, set<T>>,
                             rx: T, roots': seq<T>, sets': map<T, set<T>>)
    requires GroupedUpTo(root, keys, i, roots, sets) && i < |keys|
    requires keys[i] in root && rx == root[keys[i]] && rx in root && root[rx] == rx
    requires roots' == if rx in sets then roots else roots + [rx]
    requires sets' == sets[rx := (if rx in sets then sets[rx] else {}) + {keys[i]}]
    ensures GroupedUpTo(root, keys, i + 1, roots', sets')
  {
    assert keys[..i + 1] == keys[..i] + [keys[i]];
    if rx !in sets {
      forall j, k | 0 <= j < k < |roots'|
        ensures roots'[j] != roots'[k]
      {
        if k == |roots| {
          assert roots[j] in roots;
        }
      }
    }
  }

  /**
   * `sets` maps exactly the listed roots, each a root of `root`, to the
   * non-empty set of ids under it, and every id's root is listed.
   */
  ghost predicate RootSets<T(!new)>(root: map<T, T>, roots: seq<T>, sets: map<T, set<T>>)
  {
    (forall r :: r in sets <==> r in roots) &&
    (forall r :: r in sets ==> r in root && root[r] == r && sets[r] != {}) &&
    (forall r, y :: r in sets ==> (y in sets[r] <==> y in root && root[y] == r)) &&
    (forall y :: y in root ==> root[y] in sets)
  }

  /** The ids of the union-find grouped by root, in the order of their roots' first appearance. */
  method GroupByRoot<T(!new)>(uf: UnionFind<T>) returns (roots: seq<T>, sets: map<T, set<T>>)
    requires uf.Valid()
    modifies uf
    ensures uf.Valid() && uf.root == old(uf.root) && uf.pairs == old(uf.pairs)
    ensures uf.parent.Keys == old(uf.parent.Keys)
    ensures NoRepeats(roots) && RootSets(uf.root, roots, sets)
  {
    var keys := uf.order;
    ghost var root := uf.root;
    sets := map[];
    roots := [];
    var i := 0;
    while i < |keys|
      invariant uf.Valid() && uf.root == root && uf.pairs == old(uf.pairs)
      invariant uf.parent.Keys == old(uf.parent.Keys) && uf.order == keys
      invariant GroupedUpTo(root, keys, i, roots, sets)
      modifies uf
    {
      var x := keys[i];
      assert Listed(keys, uf.parent, x);
      var rx := uf.Find(x);
      RootIsRoot(uf.parent, uf.root, uf.dist, x);
      assert x in root && rx == root[x] && rx in root && root[rx] == rx;
      var roots' := if rx in sets then roots else roots + [rx];
      var sets' := sets[rx := (if rx in sets then sets[rx] else {}) + {x}];
      GroupedStep(root, keys, i, roots, sets, rx, roots', sets');
      roots, sets := roots', sets';
      i := i + 1;
    }
    GroupedAll(uf.parent, uf.root, uf.dist, keys, roots, sets);
  }

  /** Once every key is grouped, `sets[r]` is the whole tree of `r`. */
  lemma {:induction false} GroupedAll<T(!new)>(parent: map<T, T>, root: map<T, T>, dist: map<T, nat>,
                            keys: seq<T>, roots: seq<T>, sets: map<T, set<T>>)
    requires Forest(parent, root, dist) && ListsKeys(keys, parent)
    requires GroupedUpTo(root, keys, |keys|, roots, sets)
    ensures NoRepeats(roots) && RootSets(root, roots, sets)
  {
    assert keys[..|keys|] == keys;
    forall r, y | r in sets
      ensures y in sets[r] <==> y in root && root[y] == r
    {
      assert Listed(keys, parent, y);
    }
    forall y | y in root
      ensures root[y] in sets
    {
      assert Listed(keys, parent, y);
      var j :| 0 <= j < |keys| && keys[j] == y;
    }
  }

  /**
   * `parse_links`: with no `TechLinks` sheet or no `RuleType` column both
   * lists are empty; otherwise `groups` lists each block of at least two
   * ids merged by the mutually-exclusive pairs, once, and `depends` is the
   * coupling pairs in row order.
   */
  method ParseLinks(sheet: Option<LinkSheet>) returns (groups: seq<set<string>>, depends: seq<(string, string)>)
    ensures sheet.None? || !sheet.value.hasRuleType ==> groups == [] && depends == []
    ensures sheet.Some? && sheet.value.hasRuleType ==> depends == Couplings(sheet.value.rows)
    ensures sheet.Some? && sheet.value.hasRuleType ==>
      forall g :: g in groups <==>
        exists x :: x in Nodes(ExclusivePairs(sheet.value.rows)) &&
          g == Comp(ExclusivePairs(sheet.value.rows), x) && |g| > 1
    ensures NoRepeats(groups)
  {
    if sheet.None? || !sheet.value.hasRuleType {
      return [], [];
    }
    var rows := sheet.value.rows;
    ghost var pairs := ExclusivePairs(rows);
    var uf;
    uf, depends := ApplyRows(rows);
    groups := Groups(uf);
  }

  /** `sets` grouped by root, then `[v for v in sets.values() if len(v) > 1]`. */
  method Groups<T(==,!new)>(uf: UnionFind<T>) returns (groups: seq<set<T>>)
    requires uf.Valid() && uf.parent.Keys == Nodes(uf.pairs)
    modifies uf
    ensures uf.pairs == old(uf.pairs)
    ensures forall g :: g in groups <==> exists x :: x in Nodes(uf.pairs) && g == Comp(uf.pairs, x) && |g| > 1
    ensures NoRepeats(groups)
  {
    var roots, sets := GroupByRoot(uf);
    ghost var root, pairs := uf.root, uf.pairs;
    assert Tracks(root, pairs) && root.Keys == Nodes(pairs);
    GroupsAreComps(root, pairs, roots, sets);
    BigGroupsDistinct(roots, sets);
    groups := BigGroups(roots, sets);
  }

  /** The root-indexed sets are the reference groups. */
  lemma {:induction false} GroupsAreComps<T(!new)>(root: map<T, T>, pairs: seq<(T, T)>,
                       roots: seq<T>, sets: map<T, set<T>>)
    requires Tracks(root, pairs) && root.Keys == Nodes(pairs)
    requires RootSets(root, roots, sets)
    ensures forall r1, r2 :: r1 in roots && r2 in roots && r1 != r2 ==> sets[r1] !! sets[r2]
    ensures forall g :: g in BigGroups(roots, sets) <==>
      exists x :: x in Nodes(pairs) && g == Comp(pairs, x) && |g| > 1
  {
    forall r1, r2 | r1 in roots && r2 in roots && r1 != r2
      ensures sets[r1] !! sets[r2]
    {
      assert r1 in sets && r2 in sets;
      forall y | y in sets[r1]
        ensures y !in sets[r2]
      {
        assert y in root && root[y] == r1;
      }
    }
    forall r | r in sets
      ensures sets[r] == Comp(pairs, r)
    {
      CompBasics(pairs, r);
      forall y | y in Comp(pairs, r)
        ensures y in root
      {
      }
      forall y | y in root
        ensures y in Comp(pairs, r) <==> root[y] == r
      {
        assert Agrees(root, pairs, r, y);
      }
    }
    var groups := BigGroups(roots, sets);
    forall g | g in groups
      ensures exists x :: x in Nodes(pairs) && g == Comp(pairs, x) && |g| > 1
    {
      var r :| r in roots && g == sets[r] && |sets[r]| > 1;
      assert r in Nodes(pairs);
    }
    forall g | (exists x :: x in Nodes(pairs) && g == Comp(pairs, x) && |g| > 1)
      ensures g in groups
    {
      var x :| x in Nodes(pairs) && g == Comp(pairs, x) && |g| > 1;
      var r := root[x];
      assert r in sets;
      forall y
        ensures y in Comp(pairs, x) <==> y in Comp(pairs, r)
      {
        if y in root {
          assert Agrees(root, pairs, x, y);
          assert Agrees(root, pairs, r, y);
        } else {
          CompBasics(pairs, x);
          CompBasics(pairs, r);
        }
      }
      assert g == sets[r];
    }
  }
}
