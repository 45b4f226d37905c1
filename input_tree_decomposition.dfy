/** The tree decomposition as read from its file: one bag per bag name, in
    order of first appearance, and the bag-to-bag adjacency lists. The line
    format is the graph's: `a` names a bag, `a,b` links two bags, and
    `a,,v1;v2;...` sets the vertices of bag `a` by vertex name. */
module InputDecomposition {
  import opened Seqs
  import opened Text
  import opened Lines
  import opened Numbering
  import opened Graphs
  import opened Bags

  datatype InputTD = InputTD(bags: seq<Bag>, edges: seq<seq<nat>>)

  /** `edges()`. */
  function Edges(t: InputTD): (r: seq<seq<nat>>)
    ensures r == t.edges
  {
    t.edges
  }

  /** `get_bag(idx)`; the index must be in range (Rust would panic). */
  function GetBag(t: InputTD, idx: nat): (r: Bag)
    requires idx < |t.bags|
    ensures r == t.bags[idx] && r in t.bags
  {
    t.bags[idx]
  }

  /** `len()`: the number of bags. */
  function Len(t: InputTD): (r: nat)
    ensures r == |t.bags|
    ensures forall idx: nat :: idx < r ==> GetBag(t, idx) in t.bags
  {
    |t.bags|
  }

  // ---------------------------------------------------------------------------
  // The meaning of the lines

  /** A labelling line only names known vertices (else `set_vertices`
      panics). */
  predicate KnownLine(l: Line, g: Graph) {
    l.Labelled? ==> KnownFields(l.text, g)
  }

  /** Every line is a `KnownLine`. */
  predicate AllKnown(ls: seq<Line>, g: Graph) {
    ls == [] || (AllKnown(ls[..|ls| - 1], g) && KnownLine(ls[|ls| - 1], g))
  }

  /** The bag the lines give the name `n`: empty when it is created, and
      replaced by `set_vertices` at each line labelling `n`. */
  function LastBag(ls: seq<Line>, n: string, g: Graph): Bag
    requires AllKnown(ls, g)
  {
    if ls == [] then NewEmpty()
    else
      var l := ls[|ls| - 1];
      var before := LastBag(ls[..|ls| - 1], n, g);
      if l.Labelled? && l.name == n then SetVertices(before, l.text, g) else before
  }

  /** `t` is what the lines `ls` describe when bag names are numbered by the
      map `m` in the order `order`. */
  ghost predicate Describes(t: InputTD, m: map<string, nat>, order: seq<string>, ls: seq<Line>, g: Graph) {
    && Covers(order, ls)
    && |t.bags| == |order| && |t.edges| == |order|
    && Indexed(m, order)
    && AllKnown(ls, g)
    && BagsFrom(t, order, ls, g)
    && AdjacencyFrom(t.edges, m, order, ls)
  }

  ghost predicate BagsFrom(t: InputTD, order: seq<string>, ls: seq<Line>, g: Graph)
    requires |t.bags| == |order| && AllKnown(ls, g)
  {
    forall k :: 0 <= k < |order| ==> t.bags[k] == LastBag(ls, order[k], g)
  }

  /** The decomposition the lines describe, with bag names numbered by first
      appearance. */
  ghost predicate Models(t: InputTD, lines: seq<string>, g: Graph) {
    var ls := Parse(lines);
    exists m :: Describes(t, m, Order(ls), ls, g)
  }

  // ---------------------------------------------------------------------------
  // InputTreeDecomposition::new

  /** `InputTreeDecomposition::new`, over the lines of the file. Every
      labelling line must name known vertices only. */
  method ParseInput(lines: seq<string>, g: Graph) returns (t: InputTD)
    requires forall k :: 0 <= k < |lines| ==> KnownLine(ParseLine(lines[k]), g)
    ensures Models(t, lines, g)
  {
    var indices: map<string, nat> := map[];
    var bags: seq<Bag> := [];
    var edges: seq<seq<nat>> := [];
    ghost var ls: seq<Line> := [];
    for i := 0 to |lines|
      invariant ls == Parse(lines[..i])
      invariant Describes(InputTD(bags, edges), indices, Order(ls), ls, g)
    {
      ParseStep(lines, i);
      indices, bags, edges := AddLine(indices, bags, edges, ls, ParseLine(lines[i]), g);
      ls := ls + [ParseLine(lines[i])];
    }
    assert lines[..|lines|] == lines;
    t := InputTD(bags, edges);
  }

  /** The body of the loop of `new`: one classified line `l` read after the
      lines `ls`. */
  method AddLine(m: map<string, nat>, bags: seq<Bag>, edges: seq<seq<nat>>, ghost ls: seq<Line>, l: Line, g: Graph)
    returns (m': map<string, nat>, bags': seq<Bag>, edges': seq<seq<nat>>)
    requires Describes(InputTD(bags, edges), m, Order(ls), ls, g)
    requires KnownLine(l, g)
    ensures Describes(InputTD(bags', edges'), m', Order(ls + [l]), ls + [l], g)
  {
    m', bags', edges' := m, bags, edges;
    match l
    case Blank =>
      SkipLine(InputTD(bags', edges'), m', ls, l, g);
    case Mention(a) =>
      m', bags', edges' := InternBag(m', bags', edges', Order(ls), ls, a, g);
      AddNamesOne(Order(ls), a);
      SkipLine(InputTD(bags', edges'), m', ls, l, g);
    case Link(a, b) =>
      m', bags', edges' := InternBag(m', bags', edges', Order(ls), ls, a, g);
      m', bags', edges' := InternBag(m', bags', edges', AddName(Order(ls), a), ls, b, g);
      var x, y := m'[a], m'[b];
      ghost var mid := edges';
      edges' := edges'[x := edges'[x] + [y]];
      edges' := edges'[y := edges'[y] + [x]];
      LinkStep(InputTD(bags', mid), InputTD(bags', edges'), m', ls, a, b, g);
    case Labelled(a, text) =>
      m', bags', edges' := InternBag(m', bags', edges', Order(ls), ls, a, g);
      AddNamesOne(Order(ls), a);
      var x := m'[a];
      ghost var mid := bags';
      bags' := bags'[x := SetVertices(bags'[x], text, g)];
      LabelStep(InputTD(mid, edges'), m', ls, a, text, g);
  }

  /** The "add bag if first occurrence" block, with its proof. */
  method InternBag(m: map<string, nat>, bags: seq<Bag>, edges: seq<seq<nat>>, ghost order: seq<string>, ghost ls: seq<Line>, a: string, g: Graph)
    returns (m': map<string, nat>, bags': seq<Bag>, edges': seq<seq<nat>>)
    requires Describes(InputTD(bags, edges), m, order, ls, g)
    ensures Describes(InputTD(bags', edges'), m', AddName(order, a), ls, g)
    ensures a in m'
  {
    m', bags', edges' := m, bags, edges;
    if a !in m {
      m' := m[a := |bags|];
      bags' := bags + [NewEmpty()];
      edges' := edges + [[]];
      IndexedIntern(m, order, a);
      assert AddName(order, a) == order + [a];
      AdjacencyIntern(edges, m, order, ls, a);
      UnlabelledBag(ls, a, g);
      assert BagsFrom(InputTD(bags', edges'), order + [a], ls, g);
    } else {
      assert AddName(order, a) == order;
    }
  }

  lemma AllKnownStep(ls: seq<Line>, l: Line, g: Graph)
    requires AllKnown(ls, g) && KnownLine(l, g)
    ensures AllKnown(ls + [l], g)
    ensures (ls + [l])[..|ls|] == ls
  {
    assert (ls + [l])[..|ls|] == ls;
  }

  /** A line that neither links nor labels only adds its names. */
  lemma SkipLine(t: InputTD, m: map<string, nat>, ls: seq<Line>, l: Line, g: Graph)
    requires Describes(t, m, AddNames(Order(ls), Names(l)), ls, g)
    requires !l.Link? && !l.Labelled?
    ensures Describes(t, m, Order(ls + [l]), ls + [l], g)
  {
    OrderStep(ls, l);
    var order := Order(ls + [l]);
    BagsSkip(t, order, ls, l, g);
    AdjacencySkip(t.edges, m, order, ls, l);
  }

  lemma BagsSkip(t: InputTD, order: seq<string>, ls: seq<Line>, l: Line, g: Graph)
    requires |t.bags| == |order| && AllKnown(ls, g) && BagsFrom(t, order, ls, g)
    requires !l.Labelled?
    ensures AllKnown(ls + [l], g) && BagsFrom(t, order, ls + [l], g)
  {
    AllKnownStep(ls, l, g);
  }

  lemma LinkStep(mid: InputTD, t: InputTD, m: map<string, nat>, ls: seq<Line>, a: string, b: string, g: Graph)
    requires Describes(mid, m, AddName(AddName(Order(ls), a), b), ls, g)
    requires a in m && b in m && m[a] < |mid.edges| && m[b] < |mid.edges|
    requires t == mid.(edges := AddEdge(mid.edges, m[a], m[b]))
    ensures Describes(t, m, Order(ls + [Link(a, b)]), ls + [Link(a, b)], g)
  {
    var l := Link(a, b);
    OrderLink(ls, a, b);
    var order := Order(ls + [l]);
    BagsSkip(mid, order, ls, l, g);
    AdjacencyLink(mid.edges, m, order, ls, a, b);
  }

  lemma LabelStep(mid: InputTD, m: map<string, nat>, ls: seq<Line>, a: string, text: string, g: Graph)
    requires Describes(mid, m, AddName(Order(ls), a), ls, g)
    requires KnownLine(Labelled(a, text), g)
    ensures a in m && m[a] < |mid.bags|
    ensures var x := m[a];
      Describes(mid.(bags := mid.bags[x := SetVertices(mid.bags[x], text, g)]), m, Order(ls + [Labelled(a, text)]), ls + [Labelled(a, text)], g)
  {
    var l := Labelled(a, text);
    OrderOne(ls, l, a);
    var order := Order(ls + [l]);
    BagsSet(mid, m, order, ls, a, text, g);
    AdjacencySkip(mid.edges, m, order, ls, l);
  }

  lemma BagsSet(mid: InputTD, m: map<string, nat>, order: seq<string>, ls: seq<Line>, a: string, text: string, g: Graph)
    requires |mid.bags| == |order| && Indexed(m, order) && a in order
    requires AllKnown(ls, g) && BagsFrom(mid, order, ls, g)
    requires KnownLine(Labelled(a, text), g)
    ensures a in m && m[a] < |mid.bags|
    ensures AllKnown(ls + [Labelled(a, text)], g)
    ensures var t := mid.(bags := mid.bags[m[a] := SetVertices(mid.bags[m[a]], text, g)]);
      BagsFrom(t, order, ls + [Labelled(a, text)], g)
  {
    var l := Labelled(a, text);
    AllKnownStep(ls, l, g);
    var x := m[a];
    var t := mid.(bags := mid.bags[x := SetVertices(mid.bags[x], text, g)]);
    forall k | 0 <= k < |order| ensures t.bags[k] == LastBag(ls + [l], order[k], g) {
      if order[k] != a {
        assert m[order[k]] == k != x;
      }
    }
  }

  // ---------------------------------------------------------------------------
  // What the parsed decomposition satisfies

  /** A bag name no labelling line names has an empty bag. */
  lemma {:induction false} UnlabelledBag(ls: seq<Line>, n: string, g: Graph)
    requires AllKnown(ls, g)
    requires n !in Mentions(ls)
    ensures LastBag(ls, n, g) == NewEmpty()
  {
    if ls != [] {
      var init := ls[..|ls| - 1];
      assert Mentions(ls) == Mentions(init) + Names(ls[|ls| - 1]);
      UnlabelledBag(init, n, g);
    }
  }

  /** A later labelling line of `n` overwrites what earlier ones set: the bag
      is the one its text alone gives. */
  lemma LabelOverwrites(ls: seq<Line>, n: string, text: string, g: Graph)
    requires AllKnown(ls, g) && KnownFields(text, g)
    ensures AllKnown(ls + [Labelled(n, text)], g)
    ensures Vertices(LastBag(ls + [Labelled(n, text)], n, g)) == Vertices(SetVertices(NewEmpty(), text, g))
  {
    AllKnownStep(ls, Labelled(n, text), g);
  }

  /** The parsed decomposition has one adjacency list per bag (`len()` counts
      both), one bag per distinct bag name, and its bag-to-bag adjacency is
      symmetric and in range. */
  lemma ParsedInput(t: InputTD, lines: seq<string>, g: Graph)
    requires Models(t, lines, g)
    ensures Len(t) == |Edges(t)| == |Order(Parse(lines))|
    ensures forall x, k :: 0 <= x < |t.edges| && 0 <= k < |t.edges[x]| ==> t.edges[x][k] < Len(t)
    ensures forall x, y :: 0 <= x < |t.edges| && 0 <= y < |t.edges| ==> (y in t.edges[x] <==> x in t.edges[y])
  {
    var ls := Parse(lines);
    var m :| Describes(t, m, Order(ls), ls, g);
    AdjacencyBounded(t.edges, m, Order(ls), ls);
    AdjacencySymmetric(t.edges, m, Order(ls), ls);
  }

  /** Bag `y` is adjacent to bag `x` exactly when the lines link their names,
      and bag `x` holds what the last labelling line of its name set. */
  lemma InputMeaning(t: InputTD, lines: seq<string>, g: Graph, x: nat, y: nat)
    requires Models(t, lines, g)
    requires x < Len(t) && y < Len(t)
    ensures var ls := Parse(lines);
      && (y in t.edges[x] <==> Order(ls)[y] in Neighbours(ls, Order(ls)[x]))
      && AllKnown(ls, g) && GetBag(t, x) == LastBag(ls, Order(ls)[x], g)
  {
    var ls := Parse(lines);
    var m :| Describes(t, m, Order(ls), ls, g);
    AdjacencyMeaning(t.edges, m, Order(ls), ls, x, y);
  }
}
