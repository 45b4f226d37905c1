/** A bag of the tree decomposition: a list of vertex indices of the graph,
    and the subsets of it over which the dynamic programme tabulates. */
module Bags {
  import opened Seqs
  import opened Text
  import opened Lines
  import opened Graphs
  import opened Wrappers

  datatype Bag = Bag(vertices: seq<nat>)

  /** `Bag::new_empty`. */
  function NewEmpty(): (r: Bag)
    ensures |Vertices(r)| == 0
  {
    Bag([])
  }

  /** `Bag::new`: the list is kept as given, and `vertices()` gives it back. */
  function New(vertices: seq<nat>): (r: Bag)
    ensures Vertices(r) == vertices
  {
    Bag(vertices)
  }

  /** `vertices()`: the list the bag was made from. */
  function Vertices(b: Bag): (r: seq<nat>)
    ensures Bag(r) == b
  {
    b.vertices
  }

  // ---------------------------------------------------------------------------
  // set_vertices

  /** Every `;`-separated field of `text`, once trimmed, is a vertex name: what
      `set_vertices` needs to not panic on its `unwrap`. */
  predicate KnownFields(text: string, g: Graph) {
    var fields := Split(text, ';');
    forall k :: 0 <= k < |fields| ==> Trim(fields[k]) in g.vertexIndices
  }

  /** `Bag::set_vertices`: the list becomes the indices of the `;`-separated,
      trimmed names of `text`, in order; the old list is dropped. Splitting
      always gives at least one field, so the early return on no fields never
      happens. */
  function SetVertices(b: Bag, text: string, g: Graph): (r: Bag)
    requires KnownFields(text, g)
    ensures var fields := Split(text, ';');
      && |Vertices(r)| == |fields|
      && forall k :: 0 <= k < |fields| ==> GetVertexIdx(g, Trim(fields[k])) == Some(Vertices(r)[k])
  {
    var fields := Split(text, ';');
    Bag(seq(|fields|, k requires 0 <= k < |fields| => g.vertexIndices[Trim(fields[k])]))
  }

  /** The names of the vertices `vs`. */
  function NamesOf(g: Graph, vs: seq<nat>): (r: seq<string>)
    requires forall k :: 0 <= k < |vs| ==> vs[k] in g.vertexNames
    ensures |r| == |vs|
    ensures forall k :: 0 <= k < |vs| ==> r[k] == g.vertexNames[vs[k]]
  {
    seq(|vs|, k requires 0 <= k < |vs| => g.vertexNames[vs[k]])
  }

  /** Vertices whose names are valid bag fields: each name leads back to its
      vertex, and holds neither `;` nor surrounding whitespace. */
  predicate Listable(g: Graph, vs: seq<nat>) {
    forall k :: 0 <= k < |vs| ==>
      && vs[k] in g.vertexNames
      && IsName(g.vertexNames[vs[k]]) && ';' !in g.vertexNames[vs[k]]
      && g.vertexNames[vs[k]] in g.vertexIndices && g.vertexIndices[g.vertexNames[vs[k]]] == vs[k]
  }

  /** Writing the names of a non-empty list of vertices separated by `;` and
      reading them back with `set_vertices` gives the list again, whatever the
      bag held before. */
  lemma SetVerticesOfNames(b: Bag, g: Graph, vs: seq<nat>)
    requires |vs| >= 1
    requires Listable(g, vs)
    ensures KnownFields(Join(NamesOf(g, vs), ';'), g)
    ensures Vertices(SetVertices(b, Join(NamesOf(g, vs), ';'), g)) == vs
  {
    var names := NamesOf(g, vs);
    var text := Join(names, ';');
    SplitJoin(names, ';');
    assert Split(text, ';') == names;
    forall k | 0 <= k < |names| ensures Trim(names[k]) == names[k] {
      TrimOfName(names[k]);
    }
    assert KnownFields(text, g);
    var r := Vertices(SetVertices(b, text, g));
    forall k | 0 <= k < |vs| ensures r[k] == vs[k] {
      assert GetVertexIdx(g, Trim(names[k])) == Some(r[k]);
    }
  }

  // ---------------------------------------------------------------------------
  // The power set

  /** The subsets of the bag, each as a sorted list: the sorted subsequences
      of the sorted bag. This fixes an enumeration order of its own. */
  function Powerset(b: Bag): (r: seq<seq<nat>>)
    ensures |r| == Pow2(|b.vertices|)
    ensures [] in r
  {
    EmptyIsSubsequence(Sort(b.vertices));
    Subsequences(Sort(b.vertices))
  }

  /** The power set holds exactly the sorted lists drawn from the bag, each
      vertex used at most as often as the bag lists it; the whole bag, sorted,
      is one of them. */
  lemma PowersetMembers(b: Bag, s: seq<nat>)
    ensures s in Powerset(b) <==> Sorted(s) && multiset(s) <= multiset(b.vertices)
    ensures Sort(b.vertices) in Powerset(b)
  {
    SubsequencesOfSorted(Sort(b.vertices), s);
    WholeIsSubsequence(Sort(b.vertices));
  }

  /** The keys of a table over the bag. */
  ghost function Subsets(b: Bag): (r: set<seq<nat>>)
    ensures forall s :: s in r <==> s in Powerset(b)
  {
    set s | s in Powerset(b)
  }
}
