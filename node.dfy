/** A node of a nice tree decomposition and the dynamic programme over it.
    The nodes live in one sequence and point at each other by index: `next`
    is the parent, `prev` the children. Each node tabulates, for every subset
    of its bag (a key of `maxIs`), a weight, where 0 stands both for weight
    zero and for "not an independent set". */
module Nodes {
  import opened Seqs
  import opened Wrappers
  import opened Graphs
  import opened Bags

  datatype NodeType =
    | Leaf
    | Introduce(vertex: nat)
    | Forget(vertex: nat)
    | Join
    | Root

  datatype Node = Node(
    bag: Bag,
    kind: NodeType,
    next: nat,
    prev: seq<nat>,
    maxIs: map<seq<nat>, nat>)

  /** `Node::new`: no children and an empty table yet. */
  function NewNode(bag: Bag, kind: NodeType, next: nat): (r: Node)
    ensures r.bag == bag && r.kind == kind && r.next == next
    ensures r.prev == [] && |r.maxIs| == 0
  {
    Node(bag, kind, next, [], map[])
  }

  /** `add_to_prev`: one more child, appended; nothing else changes. */
  function AddToPrev(n: Node, child: nat): (r: Node)
    ensures r.prev == n.prev + [child]
    ensures r.bag == n.bag && r.kind == n.kind && r.next == n.next && r.maxIs == n.maxIs
  {
    n.(prev := n.prev + [child])
  }

  /** `get_weight`: the entry of `set`, which must be in the table (Rust
      unwraps the lookup). */
  function GetWeight(n: Node, subset: seq<nat>): (r: nat)
    requires subset in n.maxIs
    ensures r == n.maxIs[subset] && r in n.maxIs.Values
  {
    n.maxIs[subset]
  }

  /** Every listed node exists and has a non-empty table. */
  function AllFilled(children: seq<nat>, nodes: seq<Node>): (r: bool)
    requires forall k :: 0 <= k < |children| ==> children[k] < |nodes|
    ensures r <==> forall k :: 0 <= k < |children| ==> |nodes[children[k]].maxIs| != 0
  {
    if children == [] then true
    else |nodes[children[0]].maxIs| != 0 && AllFilled(children[1..], nodes)
  }

  /** `can_traverse`: never at the root, always at Leaf, Introduce and Forget
      nodes, and at a Join only once every child has a non-empty table. */
  function CanTraverse(n: Node, nodes: seq<Node>): (r: bool)
    requires forall k :: 0 <= k < |n.prev| ==> n.prev[k] < |nodes|
    ensures n.kind.Root? ==> !r
    ensures n.kind.Join? ==> (r <==> forall k :: 0 <= k < |n.prev| ==> |nodes[n.prev[k]].maxIs| != 0)
    ensures n.kind.Leaf? || n.kind.Introduce? || n.kind.Forget? ==> r
  {
    match n.kind
    case Join => AllFilled(n.prev, nodes)
    case Root => false
    case _ => true
  }

  // ---------------------------------------------------------------------------
  // The recurrence of update_entries

  /** Node `i` has a child number `c` in range. */
  predicate HasChild(nodes: seq<Node>, i: nat, c: nat) {
    i < |nodes| && c < |nodes[i].prev| && nodes[i].prev[c] < |nodes|
  }

  /** The table of child number `c` of node `i`. */
  function ChildTable(nodes: seq<Node>, i: nat, c: nat): map<seq<nat>, nat>
    requires HasChild(nodes, i, c)
  {
    nodes[nodes[i].prev[c]].maxIs
  }

  /** Every lookup the entry of subset `s` at node `i` makes succeeds, and a
      Join does not subtract below zero. */
  predicate EntryReady(nodes: seq<Node>, i: nat, g: Graph, s: seq<nat>) {
    && i < |nodes| && InRange(g, s)
    && match nodes[i].kind
       case Leaf => true
       case Root => true
       case Forget(v) =>
         && HasChild(nodes, i, 0)
         && s in ChildTable(nodes, i, 0) && Sort(s + [v]) in ChildTable(nodes, i, 0)
       case Introduce(v) =>
         && v < |g.weights| && v < |g.edges| && HasChild(nodes, i, 0)
         && (v in s ==> RemoveFirst(s, v) in ChildTable(nodes, i, 0))
         && (v !in s ==> s in ChildTable(nodes, i, 0))
       case Join =>
         && HasChild(nodes, i, 0) && HasChild(nodes, i, 1)
         && s in ChildTable(nodes, i, 0) && s in ChildTable(nodes, i, 1)
         && var l, r := ChildTable(nodes, i, 0)[s], ChildTable(nodes, i, 1)[s];
            (l != 0 && r != 0 ==> l + r >= WeightOfSet(g, s))
  }

  /** The entry of subset `s` at a leaf: its weight if it is independent,
      else 0. */
  function LeafEntry(g: Graph, s: seq<nat>): (r: nat)
    requires InRange(g, s)
    ensures r == 0 || (IsIndependent(g, s) && r == WeightOfSet(g, s))
    ensures IsIndependent(g, s) ==> r == WeightOfSet(g, s)
  {
    if IsIndependent(g, s) then WeightOfSet(g, s) else 0
  }

  /** The entry of `s` at a node forgetting `v`: the larger of the child's
      entries for `s` and for `s` plus `v`. */
  function ForgetEntry(child: map<seq<nat>, nat>, s: seq<nat>, v: nat): (r: nat)
    requires s in child && Sort(s + [v]) in child
    ensures r == child[s] || r == child[Sort(s + [v])]
    ensures r >= child[s] && r >= child[Sort(s + [v])]
  {
    Max(child[s], child[Sort(s + [v])])
  }

  /** The entry of `s` at a node introducing `v`: when `v` is in `s`, 0 if
      the child's entry for `s` without `v` is 0 or `v` has a neighbour
      there, else that entry plus the weight of `v`; otherwise the child's
      entry for `s`. */
  function IntroduceEntry(g: Graph, child: map<seq<nat>, nat>, s: seq<nat>, v: nat): (r: nat)
    requires v < |g.weights| && v < |g.edges|
    requires v in s ==> RemoveFirst(s, v) in child
    requires v !in s ==> s in child
    ensures v !in s ==> r == child[s]
    ensures v in s ==> (r == 0 <==> child[RemoveFirst(s, v)] == 0 || IsNeighbor(g, v, RemoveFirst(s, v)))
    ensures v in s && r != 0 ==> r == child[RemoveFirst(s, v)] + Weight(g, v)
  {
    if v in s then
      var rest := RemoveFirst(s, v);
      if child[rest] == 0 || IsNeighbor(g, v, rest) then 0 else child[rest] + g.weights[v]
    else child[s]
  }

  /** The entry of `s` at a join whose children have entries `l` and `r`:
      the other side's entry when one side's is 0, else their sum minus the
      weight of `s`, which both count. */
  function JoinEntry(g: Graph, l: nat, r: nat, s: seq<nat>): (e: nat)
    requires InRange(g, s) && (l != 0 && r != 0 ==> l + r >= WeightOfSet(g, s))
    ensures l == 0 ==> e == r
    ensures r == 0 ==> e == l
    ensures l != 0 && r != 0 ==> e + WeightOfSet(g, s) == l + r
  {
    if l == 0 then r else if r == 0 then l else l + r - WeightOfSet(g, s)
  }

  /** The entry the recurrence of node `i`'s kind gives subset `s`. */
  function Entry(nodes: seq<Node>, i: nat, g: Graph, s: seq<nat>): (e: nat)
    requires EntryReady(nodes, i, g, s)
    ensures nodes[i].kind.Root? ==> e == 0
    ensures nodes[i].kind.Leaf? ==> e == LeafEntry(g, s)
    ensures nodes[i].kind.Forget? ==> e == ForgetEntry(ChildTable(nodes, i, 0), s, nodes[i].kind.vertex)
    ensures nodes[i].kind.Introduce? ==> e == IntroduceEntry(g, ChildTable(nodes, i, 0), s, nodes[i].kind.vertex)
    ensures nodes[i].kind.Join? ==> e == JoinEntry(g, ChildTable(nodes, i, 0)[s], ChildTable(nodes, i, 1)[s], s)
  {
    match nodes[i].kind
    case Leaf => LeafEntry(g, s)
    case Forget(v) => ForgetEntry(ChildTable(nodes, i, 0), s, v)
    case Introduce(v) => IntroduceEntry(g, ChildTable(nodes, i, 0), s, v)
    case Join => JoinEntry(g, ChildTable(nodes, i, 0)[s], ChildTable(nodes, i, 1)[s], s)
    case Root => 0
  }

  function Max(a: nat, b: nat): (r: nat)
    ensures r >= a && r >= b && (r == a || r == b)
  {
    if a >= b then a else b
  }

  /** Every subset of the bag of node `i` can be tabulated. */
  predicate Ready(nodes: seq<Node>, i: nat, g: Graph) {
    && i < |nodes|
    && forall s :: s in Powerset(nodes[i].bag) ==> EntryReady(nodes, i, g, s)
  }

  /** The table the recurrence gives node `i`, keyed by the subsets of its
      bag; the root has none. */
  function Recurrence(nodes: seq<Node>, i: nat, g: Graph): (r: map<seq<nat>, nat>)
    requires Ready(nodes, i, g)
    ensures nodes[i].kind.Root? ==> |r| == 0
    ensures !nodes[i].kind.Root? ==> forall s :: s in r <==> s in Powerset(nodes[i].bag)
  {
    if nodes[i].kind.Root? then map[]
    else map s | s in Powerset(nodes[i].bag) :: Entry(nodes, i, g, s)
  }

  /** The entries of the first `j` subsets `sets` of node `i`'s bag. */
  function Entries(nodes: seq<Node>, i: nat, g: Graph, sets: seq<seq<nat>>, j: nat): map<seq<nat>, nat>
    requires j <= |sets| && forall s :: s in sets ==> EntryReady(nodes, i, g, s)
  {
    map s | s in sets[..j] :: Entry(nodes, i, g, s)
  }

  /** `update_entries`: inserts the entry of every subset of the bag into the
      table (for all kinds but the root, which keeps its table). The key each
      step inserts under is the subset itself, after the pushes, sorts and
      removals the step performs on it. */
  method UpdateEntries(nodes: seq<Node>, i: nat, g: Graph) returns (table: map<seq<nat>, nat>)
    requires Ready(nodes, i, g)
    ensures table == nodes[i].maxIs + Recurrence(nodes, i, g)
  {
    table := nodes[i].maxIs;
    if nodes[i].kind.Root? {
      assert table + map[] == table;
      return;
    }
    var sets := Powerset(nodes[i].bag);
    for j := 0 to |sets|
      invariant table == nodes[i].maxIs + Entries(nodes, i, g, sets, j)
    {
      PowersetMembers(nodes[i].bag, sets[j]);
      var key, weight := ComputeEntry(nodes, i, g, sets[j]);
      EntriesStep(nodes, i, g, sets, j, nodes[i].maxIs);
      table := table[key := weight];
    }
    EntriesAll(nodes, i, g);
  }

  lemma EntriesStep(nodes: seq<Node>, i: nat, g: Graph, sets: seq<seq<nat>>, j: nat, m: map<seq<nat>, nat>)
    requires j < |sets| && forall s :: s in sets ==> EntryReady(nodes, i, g, s)
    ensures (m + Entries(nodes, i, g, sets, j))[sets[j] := Entry(nodes, i, g, sets[j])]
        == m + Entries(nodes, i, g, sets, j + 1)
  {
    assert sets[..j + 1] == sets[..j] + [sets[j]];
  }

  lemma EntriesAll(nodes: seq<Node>, i: nat, g: Graph)
    requires Ready(nodes, i, g) && !nodes[i].kind.Root?
    ensures Entries(nodes, i, g, Powerset(nodes[i].bag), |Powerset(nodes[i].bag)|) == Recurrence(nodes, i, g)
  {
    var sets := Powerset(nodes[i].bag);
    assert sets[..|sets|] == sets;
  }

  /** The body of one iteration of `update_entries`, for a subset `subset` of the
      bag (sorted, as the power set lists it): the key it inserts under and
      the weight it computes. */
  method ComputeEntry(nodes: seq<Node>, i: nat, g: Graph, subset: seq<nat>) returns (key: seq<nat>, weight: nat)
    requires EntryReady(nodes, i, g, subset) && Sorted(subset)
    requires !nodes[i].kind.Root?
    ensures key == subset && weight == Entry(nodes, i, g, subset)
  {
    match nodes[i].kind
    case Leaf =>
      key := subset;
      if IsIndependent(g, key) {
        weight := WeightOfSet(g, key);
      } else {
        weight := 0;
      }
    case Forget(v) =>
      key, weight := ForgetStep(nodes[nodes[i].prev[0]], subset, v);
    case Introduce(v) =>
      key, weight := IntroduceStep(g, nodes[nodes[i].prev[0]], subset, v);
    case Join =>
      key, weight := JoinStep(g, nodes[nodes[i].prev[0]], nodes[nodes[i].prev[1]], subset);
  }

  /** The Forget(v) arm: looks up `subset` and `subset` with `v` (sorted) in
      the child, keeps the larger, and takes `v` out of the key again. */
  method ForgetStep(prevNode: Node, subset: seq<nat>, v: nat) returns (key: seq<nat>, weight: nat)
    requires Sorted(subset) && subset in prevNode.maxIs && Sort(subset + [v]) in prevNode.maxIs
    ensures key == subset && weight == ForgetEntry(prevNode.maxIs, subset, v)
  {
    key := subset;
    var prevWeight := GetWeight(prevNode, key);
    key := key + [v];
    key := Sort(key);
    weight := Max(prevWeight, GetWeight(prevNode, key));
    key := RemoveFirst(key, v);
    SortThenRemove(subset, v);
  }

  /** The Introduce(v) arm: when `v` is in the subset, looks the subset up
      without `v` and adds the weight of `v` unless that entry is 0 or `v`
      has a neighbour there, then puts `v` back (sorted); otherwise copies
      the child's entry. */
  method IntroduceStep(g: Graph, prevNode: Node, subset: seq<nat>, v: nat) returns (key: seq<nat>, weight: nat)
    requires Sorted(subset) && v < |g.weights| && v < |g.edges|
    requires v in subset ==> RemoveFirst(subset, v) in prevNode.maxIs
    requires v !in subset ==> subset in prevNode.maxIs
    ensures key == subset && weight == IntroduceEntry(g, prevNode.maxIs, subset, v)
  {
    key := subset;
    if v in key {
      key := RemoveFirst(key, v);
      if GetWeight(prevNode, key) == 0 || IsNeighbor(g, v, key) {
        weight := 0;
      } else {
        weight := GetWeight(prevNode, key) + Weight(g, v);
      }
      key := key + [v];
      key := Sort(key);
      RemoveThenSort(subset, v);
    } else {
      weight := GetWeight(prevNode, key);
    }
  }

  /** The Join arm: the other side's entry when one side's is 0, else the
      sum less the weight of the subset. */
  method JoinStep(g: Graph, left: Node, right: Node, subset: seq<nat>) returns (key: seq<nat>, weight: nat)
    requires InRange(g, subset) && subset in left.maxIs && subset in right.maxIs
    requires left.maxIs[subset] != 0 && right.maxIs[subset] != 0 ==>
      left.maxIs[subset] + right.maxIs[subset] >= WeightOfSet(g, subset)
    ensures key == subset && weight == JoinEntry(g, left.maxIs[subset], right.maxIs[subset], subset)
  {
    key := subset;
    var leftWeight := GetWeight(left, key);
    var rightWeight := GetWeight(right, key);
    if leftWeight == 0 {
      weight := rightWeight;
    } else if rightWeight == 0 {
      weight := leftWeight;
    } else {
      weight := leftWeight + rightWeight - WeightOfSet(g, key);
    }
  }

  // ---------------------------------------------------------------------------
  // What the tables mean

  /** The value 0 stands both for weight zero and for "not independent".
      With vertices A (index 0, weight 5) and B (index 1, weight 1) linked,
      an Introduce(A) node over bag {A, B} above a leaf with bag {B} gives
      {A} the entry 0: the leaf rightly gives the empty set 0, which the
      Introduce rule then reads as "not independent", although {A} is
      independent and weighs 5. */
  lemma ZeroConflated()
    ensures var g := Graph(map[], map[], [[1], [0]], [5, 1]);
      var leaf := Node(Bag([1]), Leaf, 1, [], map[[] := LeafEntry(g, []), [1] := LeafEntry(g, [1])]);
      var nodes := [Node(Bag([]), Root, 0, [1], map[]), Node(Bag([0, 1]), Introduce(0), 0, [2], map[]), leaf];
      && EntryReady(nodes, 1, g, [0]) && Entry(nodes, 1, g, [0]) == 0
      && IsIndependent(g, [0]) && WeightOfSet(g, [0]) == 5
  {
    var g := Graph(map[], map[], [[1], [0]], [5, 1]);
    assert RemoveFirst([0], 0) == [];
    assert LeafEntry(g, []) == 0;
  }

  /** Every entry is 0 or bounds from above the weight of its key, which is
      then an independent set. */
  predicate Sound(table: map<seq<nat>, nat>, g: Graph) {
    forall s :: s in table ==> InRange(g, s) && Bounds(g, s, table[s])
  }

  /** The tables of the children of node `i` are sound. */
  predicate ChildrenSound(nodes: seq<Node>, i: nat, g: Graph) {
    && i < |nodes|
    && forall k :: 0 <= k < |nodes[i].prev| ==> nodes[i].prev[k] < |nodes| && Sound(nodes[nodes[i].prev[k]].maxIs, g)
  }

  /** Over a symmetric graph without self-loops, each recurrence keeps tables
      sound: from sound child tables it gives a sound table. */
  lemma RecurrenceSound(nodes: seq<Node>, i: nat, g: Graph)
    requires Ready(nodes, i, g) && ChildrenSound(nodes, i, g)
    requires Symmetric(g) && Loopless(g)
    ensures Sound(Recurrence(nodes, i, g), g)
  {
    var table := Recurrence(nodes, i, g);
    forall s | s in table
      ensures InRange(g, s) && Bounds(g, s, table[s])
    {
      EntrySound(nodes, i, g, s);
    }
  }

  /** An entry is 0 or bounds the weight of its independent subset. */
  predicate Bounds(g: Graph, s: seq<nat>, e: nat)
    requires InRange(g, s)
  {
    e == 0 || (IsIndependent(g, s) && e >= WeightOfSet(g, s))
  }

  lemma EntrySound(nodes: seq<Node>, i: nat, g: Graph, s: seq<nat>)
    requires EntryReady(nodes, i, g, s) && ChildrenSound(nodes, i, g)
    requires Symmetric(g) && Loopless(g)
    ensures Bounds(g, s, Entry(nodes, i, g, s))
  {
    match nodes[i].kind
    case Leaf =>
    case Root =>
    case Forget(v) =>
      ForgetSound(g, ChildTable(nodes, i, 0), s, v);
    case Introduce(v) =>
      IntroduceSound(g, ChildTable(nodes, i, 0), s, v);
    case Join =>
      JoinSound(g, ChildTable(nodes, i, 0), ChildTable(nodes, i, 1), s);
  }

  /** Forgetting a vertex keeps the entries sound: the larger entry is either
      the child's own for `s` or that of `s` plus `v`, whose weight is larger
      still. */
  lemma ForgetSound(g: Graph, child: map<seq<nat>, nat>, s: seq<nat>, v: nat)
    requires Sound(child, g) && s in child && Sort(s + [v]) in child
    requires InRange(g, s)
    ensures Bounds(g, s, ForgetEntry(child, s, v))
  {
    var t := Sort(s + [v]);
    assert InRange(g, t);
    if child[t] != 0 && ForgetEntry(child, s, v) == child[t] {
      assert multiset(t) == multiset(s) + multiset{v} by {
        assert multiset(s + [v]) == multiset(s) + multiset{v};
      }
      assert v in t by {
        assert v in multiset(t);
      }
      WeightOfSetAdd(g, s, v, t);
      forall x | x in s ensures x in t {
        assert x in multiset(s);
        assert x in multiset(t);
      }
      IndependentSubset(g, s, t);
    }
  }

  /** Introducing a vertex keeps the entries sound: it is added only to an
      independent set it has no neighbour in. */
  lemma IntroduceSound(g: Graph, child: map<seq<nat>, nat>, s: seq<nat>, v: nat)
    requires Sound(child, g) && InRange(g, s)
    requires v < |g.weights| && v < |g.edges|
    requires v in s ==> RemoveFirst(s, v) in child
    requires v !in s ==> s in child
    requires Symmetric(g) && Loopless(g)
    ensures Bounds(g, s, IntroduceEntry(g, child, s, v))
  {
    if v in s && IntroduceEntry(g, child, s, v) != 0 {
      var rest := RemoveFirst(s, v);
      WeightOfSetRemove(g, s, v);
      forall x ensures x in s <==> x in rest || x == v {
        assert x in s <==> x in multiset(s);
        assert x in rest <==> x in multiset(rest);
      }
      IndependentAdd(g, rest, v, s);
    }
  }

  /** A join keeps the entries sound: both sides bound the weight of `s`,
      so their sum less it does too. */
  lemma JoinSound(g: Graph, left: map<seq<nat>, nat>, right: map<seq<nat>, nat>, s: seq<nat>)
    requires Sound(left, g) && Sound(right, g) && s in left && s in right && InRange(g, s)
    requires left[s] != 0 && right[s] != 0 ==> left[s] + right[s] >= WeightOfSet(g, s)
    ensures Bounds(g, s, JoinEntry(g, left[s], right[s], s))
  {
  }

  // ---------------------------------------------------------------------------
  // Backtracking: get_solution

  /** What a walk down from a node leaves behind: the solution list and the
      rejected flags, or a subtraction below zero, where Rust's `usize`
      arithmetic panics. */
  datatype Outcome = Ran(solution: seq<nat>, rejected: seq<bool>) | Underflow

  /** What the walk down from node `i` needs to make no failing lookup, with
      `n` rejected flags: its children sit further down the sequence, its bag
      holds vertices of the graph that have a flag, its table and its
      children's tables hold every subset of its bag, and it has as many
      children as its kind reads. */
  predicate NodeTraceable(nodes: seq<Node>, i: nat, g: Graph, n: nat) {
    && i < |nodes|
    && (forall k :: 0 <= k < |nodes[i].prev| ==> i < nodes[i].prev[k] < |nodes|)
    && InRange(g, nodes[i].bag.vertices)
    && (forall k :: 0 <= k < |nodes[i].bag.vertices| ==> nodes[i].bag.vertices[k] < n)
    && (!nodes[i].kind.Root? ==> forall s :: s in Powerset(nodes[i].bag) ==> s in nodes[i].maxIs)
    && match nodes[i].kind
       case Leaf => true
       case Root => true
       case Forget(v) =>
         && |nodes[i].prev| >= 1 && v < n
         && forall s :: s in Powerset(nodes[i].bag) ==> s in ChildTable(nodes, i, 0)
       case Introduce(v) =>
         |nodes[i].prev| >= 1 && v < n && v < |g.weights|
       case Join =>
         && |nodes[i].prev| >= 2
         && forall s :: s in Powerset(nodes[i].bag) ==> s in ChildTable(nodes, i, 0) && s in ChildTable(nodes, i, 1)
  }

  /** Every node can be walked from. */
  predicate Traceable(nodes: seq<Node>, g: Graph, n: nat) {
    forall i :: 0 <= i < |nodes| ==> NodeTraceable(nodes, i, g, n)
  }

  /** A subset of a bag whose vertices are flagged and in the graph has the
      same two properties. */
  lemma PowersetBounded(b: Bag, s: seq<nat>, g: Graph, n: nat)
    requires s in Powerset(b)
    requires InRange(g, b.vertices) && forall k :: 0 <= k < |b.vertices| ==> b.vertices[k] < n
    ensures InRange(g, s) && Flagged(s, n)
  {
    PowersetMembers(b, s);
    forall k | 0 <= k < |s| ensures s[k] < n && s[k] < |g.weights| && s[k] < |g.edges| {
      assert s[k] in multiset(s);
      assert s[k] in multiset(b.vertices);
      var j :| 0 <= j < |b.vertices| && b.vertices[j] == s[k];
    }
  }

  lemma PowersetAllBounded(b: Bag, g: Graph, n: nat)
    requires InRange(g, b.vertices) && forall k :: 0 <= k < |b.vertices| ==> b.vertices[k] < n
    ensures forall s :: s in Powerset(b) ==> InRange(g, s) && Flagged(s, n)
  {
    forall s | s in Powerset(b) ensures InRange(g, s) && Flagged(s, n) {
      PowersetBounded(b, s, g, n);
    }
  }

  /** Every vertex of `s` has a rejected flag among `n`. */
  predicate Flagged(s: seq<nat>, n: nat) {
    forall k :: 0 <= k < |s| ==> s[k] < n
  }

  /** Some vertex of `s` is rejected: `set.iter().any(|i| rejected[*i])`. */
  function AnyRejected(s: seq<nat>, rejected: seq<bool>): (r: bool)
    requires Flagged(s, |rejected|)
    ensures r <==> exists k :: 0 <= k < |s| && rejected[s[k]]
  {
    if s == [] then false
    else rejected[s[0]] || AnyRejected(s[1..], rejected)
  }

  /** The subset `s` may be chosen: none of its vertices is rejected and its
      entry is the objective. */
  predicate Candidate(s: seq<nat>, table: map<seq<nat>, nat>, rejected: seq<bool>, obj: nat)
    requires s in table && Flagged(s, |rejected|)
  {
    !AnyRejected(s, rejected) && table[s] == obj
  }

  /** The position of the first candidate among `sets[from..]`, the subset
      the loop over the power set stops at. */
  function FirstCandidate(sets: seq<seq<nat>>, table: map<seq<nat>, nat>, rejected: seq<bool>, obj: nat, from: nat): (r: Option<nat>)
    requires forall s :: s in sets ==> s in table && Flagged(s, |rejected|)
    ensures r.Some? ==> from <= r.value < |sets| && Candidate(sets[r.value], table, rejected, obj)
    ensures r.Some? ==> forall k :: from <= k < r.value ==> !Candidate(sets[k], table, rejected, obj)
    ensures r.None? ==> forall k :: from <= k < |sets| ==> !Candidate(sets[k], table, rejected, obj)
    decreases |sets| - from
  {
    if from >= |sets| then None
    else if Candidate(sets[from], table, rejected, obj) then Some(from)
    else FirstCandidate(sets, table, rejected, obj, from + 1)
  }

  /** Pushes, in order, each vertex of `s` that the solution does not hold
      yet. */
  function AddAll(solution: seq<nat>, s: seq<nat>): (r: seq<nat>)
    ensures solution <= r
    ensures forall x :: x in r <==> x in solution || x in s
    ensures NoDup(solution) ==> NoDup(r)
  {
    if s == [] then solution
    else
      var before := AddAll(solution, s[..|s| - 1]);
      var x := s[|s| - 1];
      assert forall y :: y in s <==> y in s[..|s| - 1] || y == x;
      if x in before then before else before + [x]
  }

  /** Flags every vertex of the bag that `s` leaves out, in bag order. */
  function RejectAll(rejected: seq<bool>, bag: seq<nat>, s: seq<nat>): (r: seq<bool>)
    requires forall k :: 0 <= k < |bag| ==> bag[k] < |rejected|
    ensures |r| == |rejected|
    ensures forall x :: 0 <= x < |r| ==> (r[x] <==> rejected[x] || (x in bag && x !in s))
  {
    if bag == [] then rejected
    else
      var before := RejectAll(rejected, bag[..|bag| - 1], s);
      var v := bag[|bag| - 1];
      assert forall y :: y in bag <==> y in bag[..|bag| - 1] || y == v;
      if v !in s then before[v := true] else before
  }

  /** The walk `get_solution` makes down from node `i`: the first subset of
      its bag (in power set order) with no rejected vertex whose entry is the
      objective is chosen and `Walk` goes on from it; without such a subset,
      or at the root, nothing changes. */
  function Backtrack(nodes: seq<Node>, i: nat, solution: seq<nat>, rejected: seq<bool>, obj: nat, g: Graph): (r: Outcome)
    requires Traceable(nodes, g, |rejected|) && i < |nodes|
    ensures r.Ran? ==> |r.rejected| == |rejected|
    decreases |nodes| - i, 2
  {
    assert NodeTraceable(nodes, i, g, |rejected|);
    var node := nodes[i];
    if node.kind.Root? then Ran(solution, rejected)
    else
      var sets := Powerset(node.bag);
      PowersetAllBounded(node.bag, g, |rejected|);
      match FirstCandidate(sets, node.maxIs, rejected, obj, 0)
      case None => Ran(solution, rejected)
      case Some(c) => Walk(nodes, i, solution, rejected, obj, g, sets[c])
  }

  /** What node `i` does with the chosen subset `s` of its bag:
      - Leaf: the rest of the bag is rejected and `s` joins the solution;
      - Forget(v): if the child has the objective for `s` too, `v` is
        rejected, else `v` joins the solution; the walk goes on into the
        child;
      - Introduce(v), `v` in `s`: `v` joins the solution, the rest of the bag
        is rejected, and the walk goes on into the child with the weight of
        `v` taken off the objective;
      - Introduce(v), `v` not in `s`: `v` is rejected and the walk goes on
        into the child;
      - Join: `s` joins the solution and the rest of the bag is rejected;
        the walk goes on into the first child whose entry for `s` is the
        objective, or else, when the two entries less the weight of `s`
        make the objective, into both children, each with its own entry as
        the objective, the second after the first. */
  function Walk(nodes: seq<Node>, i: nat, solution: seq<nat>, rejected: seq<bool>, obj: nat, g: Graph, s: seq<nat>): (r: Outcome)
    requires Traceable(nodes, g, |rejected|) && i < |nodes| && !nodes[i].kind.Root?
    requires s in Powerset(nodes[i].bag)
    ensures r.Ran? ==> |r.rejected| == |rejected|
    decreases |nodes| - i, 1
  {
    assert NodeTraceable(nodes, i, g, |rejected|);
    PowersetBounded(nodes[i].bag, s, g, |rejected|);
    match nodes[i].kind
    case Leaf => Ran(AddAll(solution, s), RejectAll(rejected, nodes[i].bag.vertices, s))
    case Forget(v) => ForgetWalk(nodes, i, solution, rejected, obj, g, s)
    case Introduce(v) => IntroduceWalk(nodes, i, solution, rejected, obj, g, s)
    case Join => JoinWalk(nodes, i, solution, rejected, obj, g, s)
  }

  function ForgetWalk(nodes: seq<Node>, i: nat, solution: seq<nat>, rejected: seq<bool>, obj: nat, g: Graph, s: seq<nat>): (r: Outcome)
    requires Traceable(nodes, g, |rejected|) && i < |nodes| && nodes[i].kind.Forget?
    requires s in Powerset(nodes[i].bag)
    ensures r.Ran? ==> |r.rejected| == |rejected|
    decreases |nodes| - i, 0
  {
    assert NodeTraceable(nodes, i, g, |rejected|);
    var v, child := nodes[i].kind.vertex, nodes[i].prev[0];
    if ChildTable(nodes, i, 0)[s] == obj then
      Backtrack(nodes, child, solution, rejected[v := true], obj, g)
    else
      Backtrack(nodes, child, AddAll(solution, [v]), rejected, obj, g)
  }

  /** The objective left once weight `w` is taken off. */
  function Less(obj: nat, w: nat): (r: nat)
    requires w <= obj
    ensures r + w == obj
  {
    obj - w
  }

  function IntroduceWalk(nodes: seq<Node>, i: nat, solution: seq<nat>, rejected: seq<bool>, obj: nat, g: Graph, s: seq<nat>): (r: Outcome)
    requires Traceable(nodes, g, |rejected|) && i < |nodes| && nodes[i].kind.Introduce?
    requires s in Powerset(nodes[i].bag)
    ensures r.Ran? ==> |r.rejected| == |rejected|
    decreases |nodes| - i, 0
  {
    assert NodeTraceable(nodes, i, g, |rejected|);
    var v, child := nodes[i].kind.vertex, nodes[i].prev[0];
    if v in s then
      if obj < g.weights[v] then Underflow
      else Backtrack(nodes, child, AddAll(solution, [v]), RejectAll(rejected, nodes[i].bag.vertices, s), Less(obj, g.weights[v]), g)
    else
      Backtrack(nodes, child, solution, rejected[v := true], obj, g)
  }

  function JoinWalk(nodes: seq<Node>, i: nat, solution: seq<nat>, rejected: seq<bool>, obj: nat, g: Graph, s: seq<nat>): (r: Outcome)
    requires Traceable(nodes, g, |rejected|) && i < |nodes| && nodes[i].kind.Join?
    requires s in Powerset(nodes[i].bag)
    ensures r.Ran? ==> |r.rejected| == |rejected|
    decreases |nodes| - i, 0
  {
    assert NodeTraceable(nodes, i, g, |rejected|);
    PowersetBounded(nodes[i].bag, s, g, |rejected|);
    var left, right := ChildTable(nodes, i, 0)[s], ChildTable(nodes, i, 1)[s];
    var solution', rejected' := AddAll(solution, s), RejectAll(rejected, nodes[i].bag.vertices, s);
    if left == obj then
      Backtrack(nodes, nodes[i].prev[0], solution', rejected', obj, g)
    else if right == obj then
      Backtrack(nodes, nodes[i].prev[1], solution', rejected', obj, g)
    else if left + right < WeightOfSet(g, s) then Underflow
    else if left + right - WeightOfSet(g, s) == obj then
      match Backtrack(nodes, nodes[i].prev[0], solution', rejected', left, g)
      case Underflow => Underflow
      case Ran(solution'', rejected'') =>
        Backtrack(nodes, nodes[i].prev[1], solution'', rejected'', right, g)
    else Ran(solution, rejected)
  }

  /** A walk leaves the solution extended (by vertices it did not hold, so
      without repeats if it had none) and the rejections in place, and keeps
      the number of flags. */
  predicate Grows(solution: seq<nat>, rejected: seq<bool>, r: Outcome) {
    r.Ran? ==>
      && solution <= r.solution && (NoDup(solution) ==> NoDup(r.solution))
      && |r.rejected| == |rejected|
      && forall x :: 0 <= x < |rejected| && rejected[x] ==> r.rejected[x]
  }

  /** Growth composes. */
  lemma GrowsThen(solution: seq<nat>, rejected: seq<bool>, mid: seq<nat>, midRejected: seq<bool>, r: Outcome)
    requires Grows(solution, rejected, Ran(mid, midRejected)) && Grows(mid, midRejected, r)
    ensures Grows(solution, rejected, r)
  {
  }

  /** One step of a walk, adding the vertices `added` and rejecting the
      bag's vertices outside `s`, grows the solution and the rejections. */
  lemma StepGrows(solution: seq<nat>, rejected: seq<bool>, added: seq<nat>, bag: seq<nat>, s: seq<nat>)
    requires forall k :: 0 <= k < |bag| ==> bag[k] < |rejected|
    ensures Grows(solution, rejected, Ran(AddAll(solution, added), RejectAll(rejected, bag, s)))
    ensures Grows(solution, rejected, Ran(AddAll(solution, added), rejected))
  {
  }

  /** Setting one flag grows the rejections. */
  lemma FlagGrows(solution: seq<nat>, rejected: seq<bool>, v: nat)
    requires v < |rejected|
    ensures Grows(solution, rejected, Ran(solution, rejected[v := true]))
  {
  }

  /** Every walk grows the solution and the rejections. */
  lemma {:induction false} BacktrackGrows(nodes: seq<Node>, i: nat, solution: seq<nat>, rejected: seq<bool>, obj: nat, g: Graph)
    requires Traceable(nodes, g, |rejected|) && i < |nodes|
    ensures Grows(solution, rejected, Backtrack(nodes, i, solution, rejected, obj, g))
    decreases |nodes| - i, 2
  {
    assert NodeTraceable(nodes, i, g, |rejected|);
    var node := nodes[i];
    if !node.kind.Root? {
      var sets := Powerset(node.bag);
      PowersetAllBounded(node.bag, g, |rejected|);
      match FirstCandidate(sets, node.maxIs, rejected, obj, 0)
      case None =>
      case Some(c) =>
        match node.kind
        case Leaf => LeafGrows(nodes, i, solution, rejected, obj, g, sets[c]);
        case Forget(_) => ForgetGrows(nodes, i, solution, rejected, obj, g, sets[c]);
        case Introduce(_) => IntroduceGrows(nodes, i, solution, rejected, obj, g, sets[c]);
        case Join => JoinGrows(nodes, i, solution, rejected, obj, g, sets[c]);
    }
  }

  lemma LeafGrows(nodes: seq<Node>, i: nat, solution: seq<nat>, rejected: seq<bool>, obj: nat, g: Graph, s: seq<nat>)
    requires Traceable(nodes, g, |rejected|) && i < |nodes| && nodes[i].kind.Leaf?
    requires s in Powerset(nodes[i].bag)
    ensures Grows(solution, rejected, Walk(nodes, i, solution, rejected, obj, g, s))
  {
    assert NodeTraceable(nodes, i, g, |rejected|);
    StepGrows(solution, rejected, s, nodes[i].bag.vertices, s);
  }

  lemma {:induction false} ForgetGrows(nodes: seq<Node>, i: nat, solution: seq<nat>, rejected: seq<bool>, obj: nat, g: Graph, s: seq<nat>)
    requires Traceable(nodes, g, |rejected|) && i < |nodes| && nodes[i].kind.Forget?
    requires s in Powerset(nodes[i].bag)
    ensures Grows(solution, rejected, ForgetWalk(nodes, i, solution, rejected, obj, g, s))
    decreases |nodes| - i, 0
  {
    assert NodeTraceable(nodes, i, g, |rejected|);
    var v, child := nodes[i].kind.vertex, nodes[i].prev[0];
    if ChildTable(nodes, i, 0)[s] == obj {
      FlagGrows(solution, rejected, v);
      BacktrackGrows(nodes, child, solution, rejected[v := true], obj, g);
      GrowsThen(solution, rejected, solution, rejected[v := true], Backtrack(nodes, child, solution, rejected[v := true], obj, g));
    } else {
      var solution' := AddAll(solution, [v]);
      StepGrows(solution, rejected, [v], [], s);
      BacktrackGrows(nodes, child, solution', rejected, obj, g);
      GrowsThen(solution, rejected, solution', rejected, Backtrack(nodes, child, solution', rejected, obj, g));
    }
  }

  lemma {:induction false} IntroduceGrows(nodes: seq<Node>, i: nat, solution: seq<nat>, rejected: seq<bool>, obj: nat, g: Graph, s: seq<nat>)
    requires Traceable(nodes, g, |rejected|) && i < |nodes| && nodes[i].kind.Introduce?
    requires s in Powerset(nodes[i].bag)
    ensures Grows(solution, rejected, IntroduceWalk(nodes, i, solution, rejected, obj, g, s))
    decreases |nodes| - i, 0
  {
    assert NodeTraceable(nodes, i, g, |rejected|);
    var v, child := nodes[i].kind.vertex, nodes[i].prev[0];
    if v in s {
      if obj >= g.weights[v] {
        var solution', rejected' := AddAll(solution, [v]), RejectAll(rejected, nodes[i].bag.vertices, s);
        var rest := Less(obj, g.weights[v]);
        StepGrows(solution, rejected, [v], nodes[i].bag.vertices, s);
        BacktrackGrows(nodes, child, solution', rejected', rest, g);
        GrowsThen(solution, rejected, solution', rejected', Backtrack(nodes, child, solution', rejected', rest, g));
      }
    } else {
      FlagGrows(solution, rejected, v);
      BacktrackGrows(nodes, child, solution, rejected[v := true], obj, g);
      GrowsThen(solution, rejected, solution, rejected[v := true], Backtrack(nodes, child, solution, rejected[v := true], obj, g));
    }
  }

  lemma {:induction false} JoinGrows(nodes: seq<Node>, i: nat, solution: seq<nat>, rejected: seq<bool>, obj: nat, g: Graph, s: seq<nat>)
    requires Traceable(nodes, g, |rejected|) && i < |nodes| && nodes[i].kind.Join?
    requires s in Powerset(nodes[i].bag)
    ensures Grows(solution, rejected, JoinWalk(nodes, i, solution, rejected, obj, g, s))
    decreases |nodes| - i, 0
  {
    assert NodeTraceable(nodes, i, g, |rejected|);
    var node := nodes[i];
    PowersetBounded(node.bag, s, g, |rejected|);
    var left, right := ChildTable(nodes, i, 0)[s], ChildTable(nodes, i, 1)[s];
    var solution', rejected' := AddAll(solution, s), RejectAll(rejected, node.bag.vertices, s);
    StepGrows(solution, rejected, s, node.bag.vertices, s);
    if left == obj {
      BacktrackGrows(nodes, node.prev[0], solution', rejected', obj, g);
      GrowsThen(solution, rejected, solution', rejected', Backtrack(nodes, node.prev[0], solution', rejected', obj, g));
    } else if right == obj {
      BacktrackGrows(nodes, node.prev[1], solution', rejected', obj, g);
      GrowsThen(solution, rejected, solution', rejected', Backtrack(nodes, node.prev[1], solution', rejected', obj, g));
    } else if left + right >= WeightOfSet(g, s) && left + right - WeightOfSet(g, s) == obj {
      BacktrackGrows(nodes, node.prev[0], solution', rejected', left, g);
      var first := Backtrack(nodes, node.prev[0], solution', rejected', left, g);
      if first.Ran? {
        GrowsThen(solution, rejected, solution', rejected', first);
        BacktrackGrows(nodes, node.prev[1], first.solution, first.rejected, right, g);
        GrowsThen(solution, rejected, first.solution, first.rejected, Backtrack(nodes, node.prev[1], first.solution, first.rejected, right, g));
      }
    }
  }

  /** `get_solution`: walks down from node `i`, pushing onto the solution
      and setting rejected flags in place, exactly as `Backtrack` describes. */
  method GetSolution(nodes: seq<Node>, i: nat, solution: seq<nat>, rejected: array<bool>, obj: nat, g: Graph)
    returns (result: seq<nat>)
    requires Traceable(nodes, g, rejected.Length) && i < |nodes|
    requires Backtrack(nodes, i, solution, rejected[..], obj, g).Ran?
    modifies rejected
    ensures Backtrack(nodes, i, solution, old(rejected[..]), obj, g) == Ran(result, rejected[..])
    decreases |nodes| - i, 2
  {
    assert NodeTraceable(nodes, i, g, rejected.Length);
    var node := nodes[i];
    result := solution;
    if node.kind.Root? {
      return;
    }
    var sets := Powerset(node.bag);
    PowersetAllBounded(node.bag, g, rejected.Length);
    ghost var before := rejected[..];
    var c := 0;
    while c < |sets| && (AnyRejected(sets[c], rejected[..]) || GetWeight(node, sets[c]) != obj)
      invariant c <= |sets|
      invariant FirstCandidate(sets, node.maxIs, before, obj, c) == FirstCandidate(sets, node.maxIs, before, obj, 0)
      decreases |sets| - c
    {
      c := c + 1;
    }
    if c == |sets| {
      return;
    }
    result := Follow(nodes, i, solution, rejected, obj, g, sets[c]);
  }

  /** The arm of `get_solution` for node `i`'s kind, once subset `s` is
      chosen. */
  method Follow(nodes: seq<Node>, i: nat, solution: seq<nat>, rejected: array<bool>, obj: nat, g: Graph, s: seq<nat>)
    returns (result: seq<nat>)
    requires Traceable(nodes, g, rejected.Length) && i < |nodes| && !nodes[i].kind.Root?
    requires s in Powerset(nodes[i].bag)
    requires Walk(nodes, i, solution, rejected[..], obj, g, s).Ran?
    modifies rejected
    ensures Walk(nodes, i, solution, old(rejected[..]), obj, g, s) == Ran(result, rejected[..])
    decreases |nodes| - i, 1
  {
    assert NodeTraceable(nodes, i, g, rejected.Length);
    PowersetBounded(nodes[i].bag, s, g, rejected.Length);
    match nodes[i].kind
    case Leaf =>
      RejectOthers(rejected, nodes[i].bag.vertices, s);
      result := PushAll(solution, s);
    case Forget(_) =>
      result := FollowForget(nodes, i, solution, rejected, obj, g, s);
    case Introduce(_) =>
      result := FollowIntroduce(nodes, i, solution, rejected, obj, g, s);
    case Join =>
      result := FollowJoin(nodes, i, solution, rejected, obj, g, s);
  }

  method FollowForget(nodes: seq<Node>, i: nat, solution: seq<nat>, rejected: array<bool>, obj: nat, g: Graph, s: seq<nat>)
    returns (result: seq<nat>)
    requires Traceable(nodes, g, rejected.Length) && i < |nodes| && nodes[i].kind.Forget?
    requires s in Powerset(nodes[i].bag)
    requires ForgetWalk(nodes, i, solution, rejected[..], obj, g, s).Ran?
    modifies rejected
    ensures ForgetWalk(nodes, i, solution, old(rejected[..]), obj, g, s) == Ran(result, rejected[..])
    decreases |nodes| - i, 0
  {
    assert NodeTraceable(nodes, i, g, rejected.Length);
    var v, child := nodes[i].kind.vertex, nodes[i].prev[0];
    if GetWeight(nodes[child], s) == obj {
      rejected[v] := true;
      result := GetSolution(nodes, child, solution, rejected, obj, g);
    } else {
      result := PushAll(solution, [v]);
      result := GetSolution(nodes, child, result, rejected, obj, g);
    }
  }

  method FollowIntroduce(nodes: seq<Node>, i: nat, solution: seq<nat>, rejected: array<bool>, obj: nat, g: Graph, s: seq<nat>)
    returns (result: seq<nat>)
    requires Traceable(nodes, g, rejected.Length) && i < |nodes| && nodes[i].kind.Introduce?
    requires s in Powerset(nodes[i].bag)
    requires IntroduceWalk(nodes, i, solution, rejected[..], obj, g, s).Ran?
    modifies rejected
    ensures IntroduceWalk(nodes, i, solution, old(rejected[..]), obj, g, s) == Ran(result, rejected[..])
    decreases |nodes| - i, 0
  {
    assert NodeTraceable(nodes, i, g, rejected.Length);
    var v, child := nodes[i].kind.vertex, nodes[i].prev[0];
    if v in s {
      result := PushAll(solution, [v]);
      RejectOthers(rejected, nodes[i].bag.vertices, s);
      result := GetSolution(nodes, child, result, rejected, Less(obj, Weight(g, v)), g);
    } else {
      rejected[v] := true;
      result := GetSolution(nodes, child, solution, rejected, obj, g);
    }
  }

  method FollowJoin(nodes: seq<Node>, i: nat, solution: seq<nat>, rejected: array<bool>, obj: nat, g: Graph, s: seq<nat>)
    returns (result: seq<nat>)
    requires Traceable(nodes, g, rejected.Length) && i < |nodes| && nodes[i].kind.Join?
    requires s in Powerset(nodes[i].bag)
    requires JoinWalk(nodes, i, solution, rejected[..], obj, g, s).Ran?
    modifies rejected
    ensures JoinWalk(nodes, i, solution, old(rejected[..]), obj, g, s) == Ran(result, rejected[..])
    decreases |nodes| - i, 0
  {
    assert NodeTraceable(nodes, i, g, rejected.Length);
    PowersetBounded(nodes[i].bag, s, g, rejected.Length);
    var left := GetWeight(nodes[nodes[i].prev[0]], s);
    var right := GetWeight(nodes[nodes[i].prev[1]], s);
    result := solution;
    if left == obj {
      result := PushAll(solution, s);
      RejectOthers(rejected, nodes[i].bag.vertices, s);
      result := GetSolution(nodes, nodes[i].prev[0], result, rejected, obj, g);
    } else if right == obj {
      result := PushAll(solution, s);
      RejectOthers(rejected, nodes[i].bag.vertices, s);
      result := GetSolution(nodes, nodes[i].prev[1], result, rejected, obj, g);
    } else if left + right - WeightOfSet(g, s) == obj {
      result := PushAll(solution, s);
      RejectOthers(rejected, nodes[i].bag.vertices, s);
      result := GetSolution(nodes, nodes[i].prev[0], result, rejected, left, g);
      result := GetSolution(nodes, nodes[i].prev[1], result, rejected, right, g);
    }
  }

  /** Flags in place every vertex of the bag that `s` leaves out. */
  method RejectOthers(rejected: array<bool>, bag: seq<nat>, s: seq<nat>)
    requires forall k :: 0 <= k < |bag| ==> bag[k] < rejected.Length
    modifies rejected
    ensures rejected[..] == RejectAll(old(rejected[..]), bag, s)
  {
    for j := 0 to |bag|
      invariant rejected[..] == RejectAll(old(rejected[..]), bag[..j], s)
    {
      assert bag[..j + 1][..j] == bag[..j];
      if bag[j] !in s {
        rejected[bag[j]] := true;
      }
    }
    assert bag[..|bag|] == bag;
  }

  /** Pushes each vertex of `s` the solution does not hold yet. */
  method PushAll(solution: seq<nat>, s: seq<nat>) returns (result: seq<nat>)
    ensures result == AddAll(solution, s)
  {
    result := solution;
    for j := 0 to |s|
      invariant result == AddAll(solution, s[..j])
    {
      assert s[..j + 1][..j] == s[..j];
      if s[j] !in result {
        result := result + [s[j]];
      }
    }
    assert s[..|s|] == s;
  }
}
