/** How both parsers number names and collect adjacency lists: a map hands
    every new name the next dense index, and an edge line appends each end's
    index to the other end's list. Stated once here over the map and the
    lists, and used for the graph's vertices and for the decomposition's
    bags. */
module Numbering {
  import opened Seqs
  import opened Lines

  /** The indices `m` gives the names `ns`, in order (0 for a name without
      one, which the lines never produce). */
  function Positions(ns: seq<string>, m: map<string, nat>): (r: seq<nat>)
    ensures |r| == |ns|
    ensures forall k :: 0 <= k < |ns| && ns[k] in m ==> r[k] == m[ns[k]]
  {
    if ns == [] then []
    else
      var x := ns[|ns| - 1];
      Positions(ns[..|ns| - 1], m) + [if x in m then m[x] else 0]
  }

  /** Every name the lines mention is numbered. */
  ghost predicate Covers(order: seq<string>, ls: seq<Line>) {
    forall x :: x in Mentions(ls) ==> x in order
  }

  /** `m` gives name `order[k]` the index `k`, and no other name has one. */
  predicate Indexed(m: map<string, nat>, order: seq<string>) {
    && (forall k :: 0 <= k < |order| ==> order[k] in m && m[order[k]] == k)
    && (forall x :: x in m ==> x in order)
  }

  /** List `k` holds the indices of the names linked to `order[k]`, in line
      order. */
  ghost predicate AdjacencyFrom(edges: seq<seq<nat>>, m: map<string, nat>, order: seq<string>, ls: seq<Line>)
    requires |edges| == |order|
  {
    forall k :: 0 <= k < |order| ==> edges[k] == Positions(Neighbours(ls, order[k]), m)
  }

  // ---------------------------------------------------------------------------
  // One line at a time

  /** A new name gets the next index. */
  lemma IndexedIntern(m: map<string, nat>, order: seq<string>, a: string)
    requires Indexed(m, order) && a !in m
    ensures a !in order
    ensures Indexed(m[a := |order|], order + [a])
  {
  }

  /** A new name starts with an empty list, and the old lists keep their
      meaning under the extended map. */
  lemma AdjacencyIntern(edges: seq<seq<nat>>, m: map<string, nat>, order: seq<string>, ls: seq<Line>, a: string)
    requires |edges| == |order| && Indexed(m, order) && Covers(order, ls)
    requires AdjacencyFrom(edges, m, order, ls)
    requires a !in m
    ensures AdjacencyFrom(edges + [[]], m[a := |order|], order + [a], ls)
  {
    var m' := m[a := |order|];
    var order' := order + [a];
    assert a !in order;
    UnmentionedNeighbours(ls, a);
    forall k | 0 <= k < |order'|
      ensures (edges + [[]])[k] == Positions(Neighbours(ls, order'[k]), m')
    {
      if k < |order| {
        NeighboursMentioned(ls, order[k]);
        PositionsAgree(Neighbours(ls, order[k]), m, m');
      }
    }
  }

  /** Positions only look at the indices of the names given. */
  lemma PositionsAgree(ns: seq<string>, m: map<string, nat>, m': map<string, nat>)
    requires forall x :: x in ns ==> x in m && x in m' && m[x] == m'[x]
    ensures Positions(ns, m) == Positions(ns, m')
  {
  }

  lemma {:induction false} PositionsAppend(ns: seq<string>, ms: seq<string>, m: map<string, nat>)
    ensures Positions(ns + ms, m) == Positions(ns, m) + Positions(ms, m)
  {
    if ms != [] {
      var ms' := ms[..|ms| - 1];
      assert (ns + ms)[..|ns + ms| - 1] == ns + ms';
      PositionsAppend(ns, ms', m);
    } else {
      assert ns + ms == ns;
    }
  }

  /** A line that links nothing leaves every list as it is. */
  lemma AdjacencySkip(edges: seq<seq<nat>>, m: map<string, nat>, order: seq<string>, ls: seq<Line>, l: Line)
    requires |edges| == |order| && AdjacencyFrom(edges, m, order, ls)
    requires !l.Link?
    ensures AdjacencyFrom(edges, m, order, ls + [l])
  {
    forall k | 0 <= k < |order|
      ensures edges[k] == Positions(Neighbours(ls + [l], order[k]), m)
    {
      NeighboursStep(ls, l, order[k]);
      assert LinkedTo(l, order[k]) == [];
      assert Neighbours(ls + [l], order[k]) == Neighbours(ls, order[k]);
    }
  }

  /** The two pushes of an edge line `a,b`: `b`'s index onto `a`'s list, then
      `a`'s index onto `b`'s list. */
  function AddEdge(edges: seq<seq<nat>>, x: nat, y: nat): (r: seq<seq<nat>>)
    requires x < |edges| && y < |edges|
    ensures |r| == |edges|
  {
    var e := edges[x := edges[x] + [y]];
    e[y := e[y] + [x]]
  }

  /** An edge line `a,b` extends the lists of its two ends. */
  lemma AdjacencyLink(edges: seq<seq<nat>>, m: map<string, nat>, order: seq<string>, ls: seq<Line>, a: string, b: string)
    requires |edges| == |order| && Indexed(m, order) && AdjacencyFrom(edges, m, order, ls)
    requires a in m && b in m
    ensures AdjacencyFrom(AddEdge(edges, m[a], m[b]), m, order, ls + [Link(a, b)])
  {
    var l := Link(a, b);
    var edges' := AddEdge(edges, m[a], m[b]);
    forall k | 0 <= k < |order|
      ensures edges'[k] == Positions(Neighbours(ls + [l], order[k]), m)
    {
      var n := order[k];
      NeighboursStep(ls, l, n);
      AddEdgeAt(edges, m[a], m[b], k);
      assert m[a] == k <==> a == n;
      assert m[b] == k <==> b == n;
      EdgeAt(Neighbours(ls, n), n, a, b, m);
    }
  }

  lemma AddEdgeAt(edges: seq<seq<nat>>, x: nat, y: nat, k: nat)
    requires x < |edges| && y < |edges| && k < |edges|
    ensures var ex: seq<nat> := if x == k then [y] else [];
      var ey: seq<nat> := if y == k then [x] else [];
      AddEdge(edges, x, y)[k] == edges[k] + ex + ey
  {
  }

  /** The positions of the old neighbours of `n`, followed by what a link
      `a,b` adds to them. */
  lemma EdgeAt(before: seq<string>, n: string, a: string, b: string, m: map<string, nat>)
    requires a in m && b in m && n in m
    requires m[a] == m[n] <==> a == n
    requires m[b] == m[n] <==> b == n
    ensures var ex: seq<nat> := if m[a] == m[n] then [m[b]] else [];
      var ey: seq<nat> := if m[b] == m[n] then [m[a]] else [];
      Positions(before + LinkedTo(Link(a, b), n), m) == Positions(before, m) + ex + ey
  {
    var linked := LinkedTo(Link(a, b), n);
    PositionsAppend(before, linked, m);
    var ex: seq<nat> := if m[a] == m[n] then [m[b]] else [];
    var ey: seq<nat> := if m[b] == m[n] then [m[a]] else [];
    assert linked == (if a == n then [b] else []) + (if b == n then [a] else []);
    assert |linked| == |ex + ey|;
    forall k | 0 <= k < |linked| ensures Positions(linked, m)[k] == (ex + ey)[k] {
    }
    assert Positions(linked, m) == ex + ey;
  }

  // ---------------------------------------------------------------------------
  // What the finished lists mean

  /** Index `y` is on list `x` exactly when the lines link name `order[y]` to
      name `order[x]`. */
  lemma AdjacencyMeaning(edges: seq<seq<nat>>, m: map<string, nat>, order: seq<string>, ls: seq<Line>, x: nat, y: nat)
    requires |edges| == |order| && Indexed(m, order) && Covers(order, ls)
    requires AdjacencyFrom(edges, m, order, ls)
    requires x < |order| && y < |order|
    ensures y in edges[x] <==> order[y] in Neighbours(ls, order[x])
  {
    NeighboursMentioned(ls, order[x]);
    PositionsIndex(Neighbours(ls, order[x]), order, m, y);
  }

  /** Every list entry is an index. */
  lemma AdjacencyBounded(edges: seq<seq<nat>>, m: map<string, nat>, order: seq<string>, ls: seq<Line>)
    requires |edges| == |order| && Indexed(m, order) && Covers(order, ls)
    requires AdjacencyFrom(edges, m, order, ls)
    ensures forall x, k :: 0 <= x < |edges| && 0 <= k < |edges[x]| ==> edges[x][k] < |edges|
  {
    forall x | 0 <= x < |edges| ensures forall k :: 0 <= k < |edges[x]| ==> edges[x][k] < |edges| {
      NeighboursMentioned(ls, order[x]);
      PositionsBounded(Neighbours(ls, order[x]), order, m);
    }
  }

  /** The lists are symmetric: `y` is on `x`'s list exactly when `x` is on
      `y`'s. */
  lemma AdjacencySymmetric(edges: seq<seq<nat>>, m: map<string, nat>, order: seq<string>, ls: seq<Line>)
    requires |edges| == |order| && Indexed(m, order) && Covers(order, ls)
    requires AdjacencyFrom(edges, m, order, ls)
    ensures forall x, y :: 0 <= x < |edges| && 0 <= y < |edges| ==> (y in edges[x] <==> x in edges[y])
  {
    forall x, y | 0 <= x < |edges| && 0 <= y < |edges| ensures y in edges[x] <==> x in edges[y] {
      AdjacencyMeaning(edges, m, order, ls, x, y);
      AdjacencyMeaning(edges, m, order, ls, y, x);
      NeighboursSymmetric(ls, order[x], order[y]);
    }
  }

  /** With names numbered by `order`, index `y` is among the positions of `ns`
      exactly when name `order[y]` is in `ns`. */
  lemma PositionsIndex(ns: seq<string>, order: seq<string>, m: map<string, nat>, y: nat)
    requires forall z :: z in ns ==> z in order
    requires forall k :: 0 <= k < |order| ==> order[k] in m && m[order[k]] == k
    requires y < |order|
    ensures y in Positions(ns, m) <==> order[y] in ns
  {
    var ps := Positions(ns, m);
    if y in ps {
      var k :| 0 <= k < |ps| && ps[k] == y;
      assert ns[k] in order;
      var j :| 0 <= j < |order| && order[j] == ns[k];
      assert m[ns[k]] == j;
    }
    if order[y] in ns {
      var k :| 0 <= k < |ns| && ns[k] == order[y];
      assert ps[k] == y;
    }
  }

  /** Positions of numbered names are below the number of names. */
  lemma PositionsBounded(ns: seq<string>, order: seq<string>, m: map<string, nat>)
    requires forall z :: z in ns ==> z in order
    requires forall k :: 0 <= k < |order| ==> order[k] in m && m[order[k]] == k
    ensures forall k :: 0 <= k < |ns| ==> Positions(ns, m)[k] < |order|
  {
    forall k | 0 <= k < |ns| ensures Positions(ns, m)[k] < |order| {
      assert ns[k] in order;
      var j :| 0 <= j < |order| && order[j] == ns[k];
    }
  }
}
