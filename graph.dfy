/** The weighted graph: dense vertex indices handed out in order of first
    appearance, the two name maps, one adjacency list and one weight per
    vertex, and the queries the dynamic programme asks of it. */
module Graphs {
  import opened Seqs
  import opened Text
  import opened Wrappers
  import opened Lines
  import opened Numbering

  datatype Graph = Graph(
    vertexIndices: map<string, nat>,
    vertexNames: map<nat, string>,
    edges: seq<seq<nat>>,
    weights: seq<nat>)

  /** Every adjacency entry names a vertex, and each vertex has one weight and
      one adjacency list. */
  predicate WellFormed(g: Graph) {
    && |g.weights| == |g.edges|
    && forall x, k :: 0 <= x < |g.edges| && 0 <= k < |g.edges[x]| ==> g.edges[x][k] < |g.edges|
  }

  /** Adjacency is symmetric. */
  predicate Symmetric(g: Graph) {
    forall x, y :: 0 <= x < |g.edges| && 0 <= y < |g.edges| ==> (y in g.edges[x] <==> x in g.edges[y])
  }

  /** No vertex is adjacent to itself. */
  predicate Loopless(g: Graph) {
    forall x :: 0 <= x < |g.edges| ==> x !in g.edges[x]
  }

  /** Every vertex of `vs` has a weight and an adjacency list. */
  predicate InRange(g: Graph, vs: seq<nat>) {
    forall k :: 0 <= k < |vs| ==> vs[k] < |g.weights| && vs[k] < |g.edges|
  }

  /** `size()`: one vertex per weight, and so one per adjacency list in a
      well-formed graph. */
  function Size(g: Graph): (r: nat)
    ensures r == |g.weights|
    ensures WellFormed(g) ==> r == |g.edges|
  {
    |g.weights|
  }

  function GetVertexIdx(g: Graph, name: string): (r: Option<nat>)
    ensures r.Some? <==> name in g.vertexIndices
  {
    if name in g.vertexIndices then Some(g.vertexIndices[name]) else None
  }

  /** `get_weight(v)`: the weight of `v`, which is the weight of the set
      holding `v` alone. */
  function Weight(g: Graph, v: nat): (r: nat)
    requires v < |g.weights|
    ensures r == g.weights[v]
    ensures v < |g.edges| ==> r == WeightOfSet(g, [v])
  {
    g.weights[v]
  }

  // ---------------------------------------------------------------------------
  // get_weight_of_set

  /** The sum of the weights of the listed vertices, repeats counted. */
  function WeightOfSet(g: Graph, vs: seq<nat>): (r: nat)
    requires InRange(g, vs)
    ensures vs == [] ==> r == 0
    ensures forall k :: 0 <= k < |vs| ==> g.weights[vs[k]] <= r
  {
    if vs == [] then 0 else g.weights[vs[0]] + WeightOfSet(g, vs[1..])
  }

  /** Removing one occurrence of `x` takes exactly its weight off the sum. */
  lemma {:induction false} WeightOfSetRemove(g: Graph, vs: seq<nat>, x: nat)
    requires InRange(g, vs) && x in vs
    ensures InRange(g, RemoveFirst(vs, x))
    ensures WeightOfSet(g, vs) == WeightOfSet(g, RemoveFirst(vs, x)) + g.weights[x]
  {
    assert vs == [vs[0]] + vs[1..];
    if vs[0] != x {
      WeightOfSetRemove(g, vs[1..], x);
      assert RemoveFirst(vs, x) == [vs[0]] + RemoveFirst(vs[1..], x);
    }
  }

  /** The sum does not depend on the order of the vertices. */
  lemma {:induction false} WeightOfSetPermutation(g: Graph, a: seq<nat>, b: seq<nat>)
    requires InRange(g, a) && InRange(g, b)
    requires multiset(a) == multiset(b)
    ensures WeightOfSet(g, a) == WeightOfSet(g, b)
  {
    if a != [] {
      assert a == [a[0]] + a[1..];
      assert a[0] in multiset(b);
      WeightOfSetRemove(g, b, a[0]);
      var rest := RemoveFirst(b, a[0]);
      assert multiset(a[1..]) == multiset(a) - multiset{a[0]};
      WeightOfSetPermutation(g, a[1..], rest);
    } else {
      assert |b| == |multiset(b)| == 0;
    }
  }

  /** Adding a vertex adds its weight, wherever it goes. */
  lemma WeightOfSetAdd(g: Graph, s: seq<nat>, v: nat, t: seq<nat>)
    requires InRange(g, s) && InRange(g, t) && v < |g.weights|
    requires multiset(t) == multiset(s) + multiset{v}
    ensures WeightOfSet(g, t) == WeightOfSet(g, s) + g.weights[v]
  {
    var vs := [v] + s;
    assert vs[1..] == s;
    assert multiset(vs) == multiset(t);
    assert v in multiset(t);
    var i :| 0 <= i < |t| && t[i] == v;
    assert InRange(g, vs) by {
      forall k | 0 <= k < |vs| ensures vs[k] < |g.weights| && vs[k] < |g.edges| {
        if k > 0 {
          assert vs[k] == s[k - 1];
        }
      }
    }
    WeightOfSetPermutation(g, vs, t);
  }

  // ---------------------------------------------------------------------------
  // is_neighbor and is_is

  /** Whether some entry of `xs` is in `others`. */
  function AnyIn(xs: seq<nat>, others: seq<nat>): (r: bool)
    ensures r <==> exists x :: x in xs && x in others
  {
    if xs == [] then false
    else (xs[0] in others) || AnyIn(xs[1..], others)
  }

  /** `v` has a neighbour in `others`. */
  function IsNeighbor(g: Graph, v: nat, others: seq<nat>): (r: bool)
    requires v < |g.edges|
    ensures r <==> exists y :: y in others && y in g.edges[v]
  {
    AnyIn(g.edges[v], others)
  }

  /** No vertex of `xs` has a neighbour in `vs`. */
  function NoneAdjacent(g: Graph, xs: seq<nat>, vs: seq<nat>): (r: bool)
    requires InRange(g, xs)
    ensures r <==> forall k :: 0 <= k < |xs| ==> !IsNeighbor(g, xs[k], vs)
  {
    if xs == [] then true
    else !IsNeighbor(g, xs[0], vs) && NoneAdjacent(g, xs[1..], vs)
  }

  /** `vs` is independent: no two of its vertices (nor one with itself) are
      adjacent; in particular the empty set is independent. */
  function IsIndependent(g: Graph, vs: seq<nat>): (r: bool)
    requires InRange(g, vs)
    ensures r <==> forall x, y :: x in vs && y in vs ==> y !in g.edges[x]
  {
    NoneAdjacent(g, vs, vs)
  }

  /** Independence only depends on the vertices present, so it passes to
      every subset. */
  lemma IndependentSubset(g: Graph, a: seq<nat>, b: seq<nat>)
    requires InRange(g, a) && InRange(g, b)
    requires forall x :: x in a ==> x in b
    requires IsIndependent(g, b)
    ensures IsIndependent(g, a)
  {
  }

  /** Adding a vertex `v` that has no neighbour in an independent set `s` of a
      symmetric graph without self-loops keeps it independent. */
  lemma IndependentAdd(g: Graph, s: seq<nat>, v: nat, t: seq<nat>)
    requires InRange(g, s) && InRange(g, t) && v < |g.edges|
    requires Symmetric(g) && Loopless(g)
    requires forall x :: x in t <==> x in s || x == v
    requires IsIndependent(g, s) && !IsNeighbor(g, v, s)
    ensures IsIndependent(g, t)
  {
    forall x, y | x in t && y in t ensures y !in g.edges[x] {
      if x == v {
        assert y != v ==> y in s;
      } else if y == v {
        assert x in s;
        assert x !in g.edges[v];
      }
    }
  }

  // ---------------------------------------------------------------------------
  // Graph::new over the lines of a file

  /** The weight the lines give `n`: that of the last line `n,,w` whose `w`
      parses as a `usize`; 0 when there is none. */
  function LastWeight(ls: seq<Line>, n: string): (r: nat)
    ensures r <= UsizeMax
  {
    if ls == [] then 0
    else
      match WeightSet(ls[|ls| - 1], n)
      case Some(w) => w
      case None => LastWeight(ls[..|ls| - 1], n)
  }

  /** The weight one line gives `n`, if it labels `n` with a `usize`. */
  function WeightSet(l: Line, n: string): (r: Option<nat>)
    ensures r.Some? ==> r.value <= UsizeMax
  {
    if l.Labelled? && l.name == n then ParseUsize(l.text) else None
  }

  /** One more line sets the weight of `n` if it labels `n` with a number. */
  lemma LastWeightStep(ls: seq<Line>, l: Line, n: string)
    ensures LastWeight(ls + [l], n) ==
      match WeightSet(l, n)
      case Some(w) => w
      case None => LastWeight(ls, n)
  {
    assert (ls + [l])[..|ls|] == ls;
  }

  /** A name the lines never mention keeps weight 0. */
  lemma {:induction false} UnmentionedWeight(ls: seq<Line>, n: string)
    requires n !in Mentions(ls)
    ensures LastWeight(ls, n) == 0
  {
    if ls != [] {
      UnmentionedWeight(ls[..|ls| - 1], n);
    }
  }

  /** `g` is the graph that the lines `ls` describe when their names are
      numbered in the order `order`. */
  ghost predicate Describes(g: Graph, order: seq<string>, ls: seq<Line>) {
    && Covers(order, ls)
    && Numbered(g, order)
    && WeightsFrom(g, order, ls)
    && AdjacencyFrom(g.edges, g.vertexIndices, order, ls)
  }

  /** Name `order[k]` has index `k`, both ways, and there is one weight and one
      adjacency list per name. */
  predicate Numbered(g: Graph, order: seq<string>) {
    && |g.weights| == |order| && |g.edges| == |order|
    && Indexed(g.vertexIndices, order)
    && (forall k :: 0 <= k < |order| ==> k in g.vertexNames && g.vertexNames[k] == order[k])
    && (forall k :: k in g.vertexNames ==> k < |order|)
  }

  ghost predicate WeightsFrom(g: Graph, order: seq<string>, ls: seq<Line>)
    requires |g.weights| == |order|
  {
    forall k :: 0 <= k < |order| ==> g.weights[k] == LastWeight(ls, order[k])
  }

  /** The graph the lines describe, with its names numbered by first
      appearance. */
  ghost predicate Models(g: Graph, lines: seq<string>) {
    var ls := Parse(lines);
    Describes(g, Order(ls), ls)
  }

  /** Gives `name` the next free index, weight 0 and no neighbours, unless it
      already has an index. */
  function Intern(g: Graph, name: string): (r: Graph)
    ensures name in r.vertexIndices
    ensures name in g.vertexIndices ==> r == g
    ensures name !in g.vertexIndices ==>
      && r.vertexIndices[name] == |g.weights| && |r.weights| == |g.weights| + 1
      && |g.weights| in r.vertexNames && r.vertexNames[|g.weights|] == name
      && r.weights[..|g.weights|] == g.weights && r.weights[|g.weights|] == 0
      && |r.edges| == |g.edges| + 1 && r.edges[..|g.edges|] == g.edges && r.edges[|g.edges|] == []
      && forall a :: a in g.vertexIndices ==> a in r.vertexIndices && r.vertexIndices[a] == g.vertexIndices[a]
    ensures WellFormed(g) ==> WellFormed(r)
    ensures WellFormed(g) && Symmetric(g) ==> Symmetric(r)
    ensures Loopless(g) ==> Loopless(r)
  {
    if name in g.vertexIndices then g
    else
      var n := |g.weights|;
      Graph(g.vertexIndices[name := n], g.vertexNames[n := name], g.edges + [[]], g.weights + [0])
  }

  /** `Graph::new`, over the lines of the file: every name met gets the next
      index, an edge line links both ways, a `name,,w` line with a parsable
      `w` sets the weight. */
  method ParseGraph(lines: seq<string>) returns (g: Graph)
    ensures Models(g, lines)
  {
    g := Graph(map[], map[], [], []);
    ghost var ls: seq<Line> := [];
    for i := 0 to |lines|
      invariant ls == Parse(lines[..i])
      invariant Describes(g, Order(ls), ls)
    {
      ParseStep(lines, i);
      g := AddLine(g, ls, ParseLine(lines[i]));
      ls := ls + [ParseLine(lines[i])];
    }
    assert lines[..|lines|] == lines;
  }

  /** The body of the loop of `Graph::new`: one classified line `l` read after
      the lines `ls`. */
  method AddLine(g: Graph, ghost ls: seq<Line>, l: Line) returns (h: Graph)
    requires Describes(g, Order(ls), ls)
    ensures Describes(h, Order(ls + [l]), ls + [l])
  {
    match l
    case Blank =>
      h := g;
      SkipLine(h, ls, l);
    case Mention(a) =>
      InternStep(g, Order(ls), ls, a);
      h := Intern(g, a);
      AddNamesOne(Order(ls), a);
      SkipLine(h, ls, l);
    case Link(a, b) =>
      h := AddLink(g, ls, a, b);
    case Labelled(a, text) =>
      h := AddLabelled(g, ls, a, text);
  }

  /** An edge line: both names interned, then each endpoint's list gets the
      other. */
  method AddLink(g: Graph, ghost ls: seq<Line>, a: string, b: string) returns (h: Graph)
    requires Describes(g, Order(ls), ls)
    ensures Describes(h, Order(ls + [Link(a, b)]), ls + [Link(a, b)])
  {
    InternStep(g, Order(ls), ls, a);
    h := Intern(g, a);
    InternStep(h, AddName(Order(ls), a), ls, b);
    h := Intern(h, b);
    var x, y := h.vertexIndices[a], h.vertexIndices[b];
    ghost var mid := h;
    h := h.(edges := h.edges[x := h.edges[x] + [y]]);
    h := h.(edges := h.edges[y := h.edges[y] + [x]]);
    LinkStep(mid, h, ls, a, b);
  }

  /** A weight line: the name interned, then its weight set when the text
      parses. */
  method AddLabelled(g: Graph, ghost ls: seq<Line>, a: string, text: string) returns (h: Graph)
    requires Describes(g, Order(ls), ls)
    ensures Describes(h, Order(ls + [Labelled(a, text)]), ls + [Labelled(a, text)])
  {
    var l := Labelled(a, text);
    InternStep(g, Order(ls), ls, a);
    h := Intern(g, a);
    AddNamesOne(Order(ls), a);
    NamedIndex(h, AddName(Order(ls), a), ls, a);
    var x := h.vertexIndices[a];
    match ParseUsize(text)
    case Some(w) =>
      ghost var mid := h;
      h := h.(weights := h.weights[x := w]);
      WeightStep(mid, h, ls, l, a, w);
    case None =>
      SkipLine(h, ls, l);
  }

  /** A name of the order has an index with a weight. */
  lemma NamedIndex(g: Graph, order: seq<string>, ls: seq<Line>, a: string)
    requires Describes(g, order, ls) && a in order
    ensures a in g.vertexIndices && g.vertexIndices[a] < |g.weights|
  {
    var k :| 0 <= k < |order| && order[k] == a;
  }

  lemma InternStep(g: Graph, order: seq<string>, ls: seq<Line>, a: string)
    requires Describes(g, order, ls)
    ensures Describes(Intern(g, a), AddName(order, a), ls)
  {
    if a !in g.vertexIndices {
      var h := Intern(g, a);
      IndexedIntern(g.vertexIndices, order, a);
      assert AddName(order, a) == order + [a];
      InternNumbered(g, order, a);
      AdjacencyIntern(g.edges, g.vertexIndices, order, ls, a);
      UnmentionedWeight(ls, a);
      assert WeightsFrom(h, order + [a], ls);
    } else {
      assert AddName(order, a) == order;
    }
  }

  lemma InternNumbered(g: Graph, order: seq<string>, a: string)
    requires Numbered(g, order) && a !in g.vertexIndices
    ensures Numbered(Intern(g, a), order + [a])
  {
  }

  /** A line that neither links nor sets a weight only adds its names. */
  lemma SkipLine(g: Graph, ls: seq<Line>, l: Line)
    requires Describes(g, AddNames(Order(ls), Names(l)), ls)
    requires !l.Link? && (l.Labelled? ==> ParseUsize(l.text).None?)
    ensures Describes(g, Order(ls + [l]), ls + [l])
  {
    OrderStep(ls, l);
    var order := Order(ls + [l]);
    WeightsSkip(g, order, ls, l);
    AdjacencySkip(g.edges, g.vertexIndices, order, ls, l);
  }

  lemma WeightsSkip(g: Graph, order: seq<string>, ls: seq<Line>, l: Line)
    requires |g.weights| == |order| && WeightsFrom(g, order, ls)
    requires !l.Labelled? || ParseUsize(l.text).None?
    ensures WeightsFrom(g, order, ls + [l])
  {
    forall k | 0 <= k < |order| ensures g.weights[k] == LastWeight(ls + [l], order[k]) {
      LastWeightStep(ls, l, order[k]);
    }
  }

  lemma LinkStep(mid: Graph, g: Graph, ls: seq<Line>, a: string, b: string)
    requires Describes(mid, AddName(AddName(Order(ls), a), b), ls)
    requires g == mid.(edges := AddEdge(mid.edges, mid.vertexIndices[a], mid.vertexIndices[b]))
    ensures Describes(g, Order(ls + [Link(a, b)]), ls + [Link(a, b)])
  {
    var l := Link(a, b);
    OrderLink(ls, a, b);
    var order := Order(ls + [l]);
    WeightsSkip(g, order, ls, l);
    AdjacencyLink(mid.edges, mid.vertexIndices, order, ls, a, b);
  }

  lemma WeightStep(mid: Graph, g: Graph, ls: seq<Line>, l: Line, a: string, w: nat)
    requires l.Labelled? && l.name == a && ParseUsize(l.text) == Some(w)
    requires Describes(mid, AddName(Order(ls), a), ls)
    requires g == mid.(weights := mid.weights[mid.vertexIndices[a] := w])
    ensures Describes(g, Order(ls + [l]), ls + [l])
  {
    OrderOne(ls, l, a);
    var order := Order(ls + [l]);
    WeightsSet(mid, g, order, ls, l, a, w);
    AdjacencySkip(mid.edges, mid.vertexIndices, order, ls, l);
  }

  lemma WeightsSet(mid: Graph, g: Graph, order: seq<string>, ls: seq<Line>, l: Line, a: string, w: nat)
    requires l.Labelled? && l.name == a && ParseUsize(l.text) == Some(w)
    requires Numbered(mid, order) && WeightsFrom(mid, order, ls) && a in order
    requires g == mid.(weights := mid.weights[mid.vertexIndices[a] := w])
    ensures |g.weights| == |order| && WeightsFrom(g, order, ls + [l])
  {
    var x := mid.vertexIndices[a];
    forall k | 0 <= k < |order| ensures g.weights[k] == LastWeight(ls + [l], order[k]) {
      LastWeightStep(ls, l, order[k]);
      if order[k] != a {
        assert mid.vertexIndices[order[k]] == k != x;
      }
    }
  }

  // ---------------------------------------------------------------------------
  // What the parsed graph satisfies

  /** The parsed graph is well formed and its adjacency is symmetric; `size()`
      is the number of distinct names, and the two name maps are inverse. */
  lemma ParsedGraph(g: Graph, lines: seq<string>)
    requires Models(g, lines)
    ensures WellFormed(g) && Symmetric(g)
    ensures Size(g) == |Order(Parse(lines))|
    ensures forall x :: x in g.vertexIndices ==> g.vertexIndices[x] in g.vertexNames && g.vertexNames[g.vertexIndices[x]] == x
    ensures forall k :: k in g.vertexNames ==> g.vertexNames[k] in g.vertexIndices && g.vertexIndices[g.vertexNames[k]] == k
  {
    var ls := Parse(lines);
    var order := Order(ls);
    AdjacencyBounded(g.edges, g.vertexIndices, order, ls);
    AdjacencySymmetric(g.edges, g.vertexIndices, order, ls);
    NamesInverse(g, order);
  }

  lemma NamesInverse(g: Graph, order: seq<string>)
    requires Numbered(g, order)
    ensures forall x :: x in g.vertexIndices ==> g.vertexIndices[x] in g.vertexNames && g.vertexNames[g.vertexIndices[x]] == x
    ensures forall k :: k in g.vertexNames ==> g.vertexNames[k] in g.vertexIndices && g.vertexIndices[g.vertexNames[k]] == k
  {
    forall x | x in g.vertexIndices
      ensures g.vertexIndices[x] in g.vertexNames && g.vertexNames[g.vertexIndices[x]] == x
    {
      var k :| 0 <= k < |order| && order[k] == x;
    }
  }

  /** `y` is adjacent to `x` exactly when the lines link their names. */
  lemma EdgeMeaning(g: Graph, lines: seq<string>, x: nat, y: nat)
    requires Models(g, lines)
    requires x < |g.edges| && y < |g.edges|
    ensures var ls := Parse(lines);
      y in g.edges[x] <==> Order(ls)[y] in Neighbours(ls, Order(ls)[x])
  {
    var ls := Parse(lines);
    AdjacencyMeaning(g.edges, g.vertexIndices, Order(ls), ls, x, y);
  }
}
