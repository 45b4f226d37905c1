/** `ISSolver`: the dynamic programme over one nice tree decomposition. From
    each leaf in turn the tables are filled upward, one node at a time, for
    as long as the node reached can be traversed; the answer is the largest
    entry of node 1, the one child of the dummy root. */
module IsSolver {
  import opened Seqs
  import opened Graphs
  import opened Bags
  import opened Nodes
  import opened TreeDecompositions

  // ---------------------------------------------------------------------------
  // What the tables hold while the solver runs

  /** Node `k` has a non-empty table. */
  predicate Filled(nodes: seq<Node>, k: nat)
    requires k < |nodes|
  {
    |nodes[k].maxIs| != 0
  }

  /** Every child of node `k` exists and has a non-empty table. */
  predicate ChildrenFilled(nodes: seq<Node>, k: nat)
    requires k < |nodes|
  {
    forall c :: 0 <= c < |nodes[k].prev| ==> nodes[k].prev[c] < |nodes| && Filled(nodes, nodes[k].prev[c])
  }

  /** Every child of node `k` exists. */
  predicate ChildrenInRange(nodes: seq<Node>, k: nat)
    requires k < |nodes|
  {
    forall c :: 0 <= c < |nodes[k].prev| ==> nodes[k].prev[c] < |nodes|
  }

  /** Node `k`'s table is sound, and once filled it is the table the
      recurrence gives over its filled children, so it holds every subset of
      the bag; the root's table stays empty. */
  predicate TableOK(nodes: seq<Node>, k: nat, g: Graph)
    requires k < |nodes|
  {
    && Sound(nodes[k].maxIs, g)
    && (Filled(nodes, k) ==>
          && !nodes[k].kind.Root? && ChildrenFilled(nodes, k)
          && Ready(nodes, k, g) && nodes[k].maxIs == Recurrence(nodes, k, g))
  }

  /** Node `k` differs from `shape[k]` at most in its table. */
  predicate SameShape(nodes: seq<Node>, shape: seq<Node>, k: nat)
    requires k < |nodes| && k < |shape|
  {
    nodes[k] == shape[k].(maxIs := nodes[k].maxIs)
  }

  /** The graph the solver works on: symmetric, without self-loops, with a
      weight and an adjacency list for every vertex below `size`. */
  predicate GraphOK(g: Graph, size: nat) {
    Symmetric(g) && Loopless(g) && size <= |g.weights| && size <= |g.edges|
  }

  /** The solver's state: the nodes are those of the built tree `shape`
      (with vertices below `size`) but for their tables, and every table is
      as TableOK says. */
  predicate Solving(nodes: seq<Node>, shape: seq<Node>, leaves: seq<nat>, g: Graph, size: nat) {
    && GraphOK(g, size) && Tree(shape, leaves, size) && |nodes| == |shape| && |nodes| >= 2
    && (forall k :: 0 <= k < |nodes| ==> SameShape(nodes, shape, k))
    && (forall k :: 0 <= k < |nodes| ==> TableOK(nodes, k, g))
  }

  /** `traverse_up` can work at `cur`: at an Introduce or Forget node the one
      child is filled. */
  predicate Climbable(nodes: seq<Node>, cur: nat)
    requires cur < |nodes|
  {
    (nodes[cur].kind.Introduce? || nodes[cur].kind.Forget?) ==> ChildrenFilled(nodes, cur)
  }

  /** Every table filled in `before` is still filled in `after`. */
  predicate StaysFilled(before: seq<Node>, after: seq<Node>) {
    |before| == |after| && forall k :: 0 <= k < |before| && Filled(before, k) ==> Filled(after, k)
  }

  /** A finished tree with its tables still empty starts the solver. */
  lemma StartSolving(nodes: seq<Node>, leaves: seq<nat>, g: Graph, size: nat)
    requires Tree(nodes, leaves, size) && |nodes| >= 2 && GraphOK(g, size)
    ensures Solving(nodes, nodes, leaves, g, size) && Propagated(nodes)
  {
    forall k | 0 <= k < |nodes| ensures TableOK(nodes, k, g) && !Filled(nodes, k) {
      assert NodeOK(nodes, k, size);
    }
    forall k | 1 <= k < |nodes| ensures Waiting(nodes, k) {
      assert ChildrenOf(nodes, k);
    }
  }

  // ---------------------------------------------------------------------------
  // Every table gets filled

  /** No child of node `k` is filled yet. */
  predicate NoneFilled(nodes: seq<Node>, k: nat)
    requires k < |nodes|
  {
    forall c :: 0 <= c < |nodes[k].prev| ==> nodes[k].prev[c] < |nodes| && !Filled(nodes, nodes[k].prev[c])
  }

  /** Node `k` is filled, or it waits for a child: none of its children is
      filled yet, or it is a Join with a child not yet filled. */
  predicate Waiting(nodes: seq<Node>, k: nat)
    requires k < |nodes|
  {
    Filled(nodes, k) || NoneFilled(nodes, k) || (nodes[k].kind.Join? && !ChildrenFilled(nodes, k))
  }

  /** Every node but the root, and but node `cur`, is filled or waits for a
      child. */
  predicate WaitingBut(nodes: seq<Node>, cur: nat) {
    forall k :: 1 <= k < |nodes| && k != cur ==> Waiting(nodes, k)
  }

  /** Every node but the root is filled or waits for a child: a filled node
      has had its parent filled too, unless that parent is a Join still
      waiting for its other child. */
  predicate Propagated(nodes: seq<Node>) {
    WaitingBut(nodes, 0)
  }

  /** Filling node `cur` can only stop its parent from waiting. */
  lemma WaitingStep(nodes: seq<Node>, shape: seq<Node>, leaves: seq<nat>, g: Graph, size: nat, cur: nat,
                    table: map<seq<nat>, nat>)
    requires Solving(nodes, shape, leaves, g, size) && 1 <= cur < |nodes| && WaitingBut(nodes, cur) && [] in table
    ensures WaitingBut(nodes[cur := nodes[cur].(maxIs := table)], nodes[cur].next)
  {
    var nodes' := nodes[cur := nodes[cur].(maxIs := table)];
    var p := nodes[cur].next;
    assert Filled(nodes', cur);
    forall k | 1 <= k < |nodes'| && k != p && k != cur ensures Waiting(nodes', k) {
      assert Waiting(nodes, k) && nodes'[k] == nodes[k];
      assert SameShape(nodes, shape, k) && ChildrenOf(shape, k);
      forall c | 0 <= c < |nodes[k].prev|
        ensures nodes[k].prev[c] < |nodes| && nodes'[nodes[k].prev[c]] == nodes[nodes[k].prev[c]]
      {
        assert SameShape(nodes, shape, nodes[k].prev[c]);
      }
      assert NoneFilled(nodes', k) == NoneFilled(nodes, k);
      assert ChildrenFilled(nodes', k) == ChildrenFilled(nodes, k);
    }
  }

  /** With every leaf filled, every node from `k` on is filled: its children
      come after it, so they are, and a node all of whose children are
      filled waits for none. */
  lemma {:induction false} FilledFrom(nodes: seq<Node>, shape: seq<Node>, leaves: seq<nat>, g: Graph, size: nat, k: nat)
    requires Solving(nodes, shape, leaves, g, size) && Propagated(nodes) && 1 <= k <= |nodes|
    requires forall m :: 0 <= m < |leaves| ==> leaves[m] < |nodes| && Filled(nodes, leaves[m])
    ensures forall j :: k <= j < |nodes| ==> Filled(nodes, j)
    decreases |nodes| - k
  {
    if k < |nodes| {
      FilledFrom(nodes, shape, leaves, g, size, k + 1);
      assert SameShape(nodes, shape, k) && ChildrenOf(shape, k) && Full(shape, k) && LeafListed(leaves, shape, k);
      assert Waiting(nodes, k);
      if nodes[k].kind.Leaf? {
        var m :| 0 <= m < |leaves| && leaves[m] == k;
      } else {
        assert Filled(nodes, nodes[k].prev[0]);
        assert ChildrenFilled(nodes, k);
      }
    }
  }

  // ---------------------------------------------------------------------------
  // The shape around one node

  /** What the built tree says about node `k` (not the root) and its
      children, read off the solver's nodes. */
  lemma Local(nodes: seq<Node>, shape: seq<Node>, leaves: seq<nat>, g: Graph, size: nat, k: nat)
    requires Solving(nodes, shape, leaves, g, size) && 1 <= k < |nodes|
    ensures !nodes[k].kind.Root? && nodes[k].next < k && k in nodes[nodes[k].next].prev
    ensures Arity(nodes[k]) && NoDup(nodes[k].bag.vertices) && Below(nodes[k].bag.vertices, size)
    ensures InRange(g, nodes[k].bag.vertices)
    ensures forall c :: 0 <= c < |nodes[k].prev| ==>
      && k < nodes[k].prev[c] < |nodes|
      && NoDup(nodes[nodes[k].prev[c]].bag.vertices)
      && Fits(nodes[k], nodes[nodes[k].prev[c]].bag.vertices)
  {
    assert SameShape(nodes, shape, k) && ParentLinked(shape, k) && Full(shape, k) && NodeOK(shape, k, size);
    assert SameShape(nodes, shape, shape[k].next);
    assert ChildrenOf(shape, k) && ChildrenFit(shape, k);
    forall c | 0 <= c < |nodes[k].prev|
      ensures k < nodes[k].prev[c] < |nodes| && NoDup(nodes[nodes[k].prev[c]].bag.vertices)
      ensures Fits(nodes[k], nodes[nodes[k].prev[c]].bag.vertices)
    {
      var j := shape[k].prev[c];
      assert SameShape(nodes, shape, j) && NodeOK(shape, j, size);
    }
    forall i | 0 <= i < |nodes[k].bag.vertices| ensures nodes[k].bag.vertices[i] < |g.weights| && nodes[k].bag.vertices[i] < |g.edges| {
      assert nodes[k].bag.vertices[i] in nodes[k].bag.vertices;
    }
  }

  /** The children of the node above a filled node `cur` exist, and if that
      node is an Introduce or Forget node, its one child is `cur`, so it can
      be worked at. */
  lemma ClimbOn(nodes: seq<Node>, shape: seq<Node>, leaves: seq<nat>, g: Graph, size: nat, cur: nat)
    requires Solving(nodes, shape, leaves, g, size) && 1 <= cur < |nodes| && Filled(nodes, cur)
    ensures nodes[cur].next < cur
    ensures Climbable(nodes, nodes[cur].next) && ChildrenInRange(nodes, nodes[cur].next)
  {
    Local(nodes, shape, leaves, g, size, cur);
    var p := nodes[cur].next;
    assert SameShape(nodes, shape, p) && ChildrenOf(shape, p);
    if p > 0 {
      Local(nodes, shape, leaves, g, size, p);
      if nodes[p].kind.Introduce? || nodes[p].kind.Forget? {
        assert nodes[p].prev == [cur];
      }
    } else {
      assert nodes[0].kind.Root?;
    }
  }

  /** A node `traverse_up` may work at is not the root, and its children
      are filled: a Leaf has none, an Introduce or Forget node is climbable
      and a Join is traversed only once both children are filled. */
  lemma Traversable(nodes: seq<Node>, shape: seq<Node>, leaves: seq<nat>, g: Graph, size: nat, cur: nat)
    requires Solving(nodes, shape, leaves, g, size) && cur < |nodes|
    requires Climbable(nodes, cur) && ChildrenInRange(nodes, cur) && CanTraverse(nodes[cur], nodes)
    ensures 1 <= cur && ChildrenFilled(nodes, cur)
  {
    assert SameShape(nodes, shape, 0);
    assert cur != 0;
    Local(nodes, shape, leaves, g, size, cur);
    if nodes[cur].kind.Join? {
      forall c | 0 <= c < |nodes[cur].prev| ensures Filled(nodes, nodes[cur].prev[c]) {
      }
    }
  }

  /** The state of `traverse_up` from `start`, now at `cur`: the tables are
      right, `cur` can be worked at, nothing filled at the start `nodes0` has
      been emptied, and `start` is filled once the walk has left it. */
  predicate Climbing(nodes0: seq<Node>, nodes: seq<Node>, shape: seq<Node>, leaves: seq<nat>, g: Graph, size: nat,
                     start: nat, cur: nat) {
    && Solving(nodes, shape, leaves, g, size)
    && cur <= start < |nodes| && Climbable(nodes, cur) && ChildrenInRange(nodes, cur)
    && StaysFilled(nodes0, nodes) && (cur < start ==> Filled(nodes, start))
    && start < |nodes0| && nodes[start].kind == nodes0[start].kind
    && WaitingBut(nodes, cur)
  }

  /** `traverse_up` starts in its state. */
  lemma ClimbStart(nodes: seq<Node>, shape: seq<Node>, leaves: seq<nat>, g: Graph, size: nat, start: nat)
    requires Solving(nodes, shape, leaves, g, size) && Propagated(nodes)
    requires start < |nodes| && Climbable(nodes, start) && ChildrenInRange(nodes, start)
    ensures Climbing(nodes, nodes, shape, leaves, g, size, start, start)
  {
  }

  /** The node `traverse_up` works at can be tabulated. */
  lemma ClimbReady(nodes0: seq<Node>, nodes: seq<Node>, shape: seq<Node>, leaves: seq<nat>, g: Graph, size: nat,
                   start: nat, cur: nat)
    requires Climbing(nodes0, nodes, shape, leaves, g, size, start, cur) && CanTraverse(nodes[cur], nodes)
    ensures Ready(nodes, cur, g)
  {
    Traversable(nodes, shape, leaves, g, size, cur);
    ReadyAt(nodes, shape, leaves, g, size, cur);
  }

  /** Tabulating the node `traverse_up` is at and moving to its parent keeps
      the walk's state, and the parent comes earlier. */
  lemma ClimbStep(nodes0: seq<Node>, nodes: seq<Node>, shape: seq<Node>, leaves: seq<nat>, g: Graph, size: nat,
                  start: nat, cur: nat, table: map<seq<nat>, nat>)
    requires Climbing(nodes0, nodes, shape, leaves, g, size, start, cur) && CanTraverse(nodes[cur], nodes)
    requires Ready(nodes, cur, g) && table == nodes[cur].maxIs + Recurrence(nodes, cur, g)
    ensures nodes[cur].next < cur
    ensures Climbing(nodes0, nodes[cur := nodes[cur].(maxIs := table)], shape, leaves, g, size, start, nodes[cur].next)
    ensures Filled(nodes[cur := nodes[cur].(maxIs := table)], cur)
    ensures StaysFilled(nodes, nodes[cur := nodes[cur].(maxIs := table)])
  {
    Traversable(nodes, shape, leaves, g, size, cur);
    UpdateKeeps(nodes, shape, leaves, g, size, cur, table);
    var nodes' := nodes[cur := nodes[cur].(maxIs := table)];
    ClimbOn(nodes', shape, leaves, g, size, cur);
    WaitingStep(nodes, shape, leaves, g, size, cur, table);
    assert nodes'[start].kind == nodes[start].kind;
    forall j | 0 <= j < |nodes0| && Filled(nodes0, j) ensures Filled(nodes', j) {
      assert Filled(nodes, j);
    }
  }

  /** `traverse_up` has walked `path` from `start` up to `cur`, following the
      parent links: every node on it is filled, and no other node differs
      from `nodes0`. */
  ghost predicate Walked(nodes0: seq<Node>, nodes: seq<Node>, start: nat, cur: nat, path: seq<nat>) {
    && |nodes| == |nodes0|
    && (|path| == 0 ==> cur == start)
    && (|path| != 0 ==> path[0] == start && path[|path| - 1] < |nodes| && nodes[path[|path| - 1]].next == cur)
    && (forall j :: 0 <= j < |path| - 1 ==> path[j] < |nodes| && nodes[path[j]].next == path[j + 1])
    && (forall j :: 0 <= j < |path| ==> path[j] < |nodes| && Filled(nodes, path[j]))
    && (forall k :: 0 <= k < |nodes| && nodes[k] != nodes0[k] ==> k in path)
  }

  /** Filling node `cur` and moving to its parent extends the walk by `cur`. */
  lemma WalkStep(nodes0: seq<Node>, nodes: seq<Node>, start: nat, cur: nat, path: seq<nat>, table: map<seq<nat>, nat>)
    requires Walked(nodes0, nodes, start, cur, path) && cur < |nodes|
    requires StaysFilled(nodes, nodes[cur := nodes[cur].(maxIs := table)])
    requires Filled(nodes[cur := nodes[cur].(maxIs := table)], cur)
    ensures Walked(nodes0, nodes[cur := nodes[cur].(maxIs := table)], start, nodes[cur].next, path + [cur])
  {
    var nodes' := nodes[cur := nodes[cur].(maxIs := table)];
    var path' := path + [cur];
    forall j | 0 <= j < |path'| - 1 ensures path'[j] < |nodes'| && nodes'[path'[j]].next == path'[j + 1] {
      assert nodes'[path[j]].next == nodes[path[j]].next;
    }
    forall j | 0 <= j < |path'| ensures path'[j] < |nodes'| && Filled(nodes', path'[j]) {
      if j < |path| {
        assert Filled(nodes, path[j]);
      }
    }
    forall k | 0 <= k < |nodes'| && nodes'[k] != nodes0[k] ensures k in path' {
      if k != cur {
        assert nodes[k] != nodes0[k];
      }
    }
  }

  /** Where `traverse_up` stops, a start that is neither the root nor a
      Join has been filled. */
  lemma ClimbDone(nodes0: seq<Node>, nodes: seq<Node>, shape: seq<Node>, leaves: seq<nat>, g: Graph, size: nat,
                  start: nat, cur: nat)
    requires Climbing(nodes0, nodes, shape, leaves, g, size, start, cur) && !CanTraverse(nodes[cur], nodes)
    ensures Solving(nodes, shape, leaves, g, size) && Propagated(nodes) && StaysFilled(nodes0, nodes) && start < |nodes|
    ensures !nodes0[start].kind.Root? && !nodes0[start].kind.Join? ==> Filled(nodes, start)
  {
    if cur != 0 {
      assert SameShape(nodes, shape, cur) && ParentLinked(shape, cur);
      assert Waiting(nodes, cur);
    }
  }

  // ---------------------------------------------------------------------------
  // Every lookup of the recurrence succeeds

  /** The keys of `table` are exactly the subsets of bag `b`. */
  ghost predicate Keyed(table: map<seq<nat>, nat>, b: Bag) {
    forall t :: t in table <==> t in Powerset(b)
  }

  /** A vertex of a bag in range of the graph is in range itself. */
  lemma InRangeMember(g: Graph, vs: seq<nat>, v: nat)
    requires InRange(g, vs) && v in vs
    ensures v < |g.weights| && v < |g.edges|
  {
    var i :| 0 <= i < |vs| && vs[i] == v;
  }

  /** Every subset of a duplicate-free bag `b` whose vertices, but perhaps
      `v`, a duplicate-free bag `c` holds, has no more of each vertex than
      `c` once `v` is taken out; if `v` is in `c` too, no more at all. */
  lemma SubBag(s: seq<nat>, b: seq<nat>, c: seq<nat>, v: nat)
    requires NoDup(b) && NoDup(c) && multiset(s) <= multiset(b)
    requires Elements(b) - {v} <= Elements(c)
    ensures multiset(s) - multiset{v} <= multiset(c)
    ensures v in c ==> multiset(s) <= multiset(c)
  {
    forall x ensures (multiset(s) - multiset{v})[x] <= multiset(c)[x]
      && (v in c ==> multiset(s)[x] <= multiset(c)[x])
    {
      NoDupMultiplicity(b, x);
      NoDupMultiplicity(c, x);
      if x in b && x != v {
        assert x in Elements(b) - {v};
      }
    }
  }

  /** A subset of `b` is a subset of every bag holding `b`'s vertices. */
  lemma SubsetWithin(b: Bag, c: Bag, s: seq<nat>)
    requires NoDup(b.vertices) && NoDup(c.vertices) && s in Powerset(b)
    requires Elements(b.vertices) <= Elements(c.vertices)
    ensures s in Powerset(c)
  {
    PowersetMembers(b, s);
    forall x ensures multiset(s)[x] <= multiset(c.vertices)[x] {
      NoDupMultiplicity(b.vertices, x);
      NoDupMultiplicity(c.vertices, x);
      if x in b.vertices {
        assert x in Elements(b.vertices);
      }
    }
    PowersetMembers(c, s);
  }

  /** A subset of the bag of a Forget(v) node, with or without `v`, is a
      subset of the child's bag. */
  lemma SubsetPlus(b: Bag, c: Bag, v: nat, s: seq<nat>)
    requires NoDup(b.vertices) && NoDup(c.vertices) && s in Powerset(b)
    requires v !in b.vertices && Elements(c.vertices) == Elements(b.vertices) + {v}
    ensures s in Powerset(c) && Sort(s + [v]) in Powerset(c)
  {
    SubsetWithin(b, c, s);
    PowersetMembers(b, s);
    assert v in Elements(c.vertices);
    SubBag(s, b.vertices, c.vertices, v);
    NoDupMultiplicity(b.vertices, v);
    NoDupMultiplicity(c.vertices, v);
    assert multiset(s + [v]) == multiset(s) + multiset{v};
    PowersetMembers(c, Sort(s + [v]));
  }

  /** A subset of the bag of an Introduce(v) node, less `v`, is a subset of
      the child's bag. */
  lemma SubsetMinus(b: Bag, c: Bag, v: nat, s: seq<nat>)
    requires NoDup(b.vertices) && NoDup(c.vertices) && s in Powerset(b)
    requires Elements(c.vertices) == Elements(b.vertices) - {v}
    ensures v in s ==> RemoveFirst(s, v) in Powerset(c)
    ensures v !in s ==> s in Powerset(c)
  {
    PowersetMembers(b, s);
    SubBag(s, b.vertices, c.vertices, v);
    if v in s {
      RemoveFirstSorted(s, v);
      PowersetMembers(c, RemoveFirst(s, v));
    } else {
      assert multiset(s) - multiset{v} == multiset(s);
      PowersetMembers(c, s);
    }
  }

  /** A filled table that is right is keyed by the subsets of its bag. */
  lemma ChildKeys(nodes: seq<Node>, g: Graph, k: nat, c: nat)
    requires HasChild(nodes, k, c) && TableOK(nodes, nodes[k].prev[c], g) && Filled(nodes, nodes[k].prev[c])
    ensures Keyed(ChildTable(nodes, k, c), nodes[nodes[k].prev[c]].bag) && Sound(ChildTable(nodes, k, c), g)
  {
  }

  /** A Forget(v) node whose child's table is keyed by the child's bag can be
      tabulated. */
  lemma ForgetReady(nodes: seq<Node>, g: Graph, k: nat)
    requires k < |nodes| && nodes[k].kind.Forget? && HasChild(nodes, k, 0)
    requires NoDup(nodes[k].bag.vertices) && InRange(g, nodes[k].bag.vertices)
    requires NoDup(nodes[nodes[k].prev[0]].bag.vertices) && Fits(nodes[k], nodes[nodes[k].prev[0]].bag.vertices)
    requires Keyed(ChildTable(nodes, k, 0), nodes[nodes[k].prev[0]].bag)
    ensures Ready(nodes, k, g)
  {
    var b, c, v := nodes[k].bag, nodes[nodes[k].prev[0]].bag, nodes[k].kind.vertex;
    forall s | s in Powerset(b) ensures EntryReady(nodes, k, g, s) {
      PowersetBounded(b, s, g, |g.weights|);
      SubsetPlus(b, c, v, s);
    }
  }

  /** An Introduce(v) node whose child's table is keyed by the child's bag
      can be tabulated. */
  lemma IntroduceReady(nodes: seq<Node>, g: Graph, k: nat)
    requires k < |nodes| && nodes[k].kind.Introduce? && HasChild(nodes, k, 0)
    requires NoDup(nodes[k].bag.vertices) && InRange(g, nodes[k].bag.vertices)
    requires NoDup(nodes[nodes[k].prev[0]].bag.vertices) && Fits(nodes[k], nodes[nodes[k].prev[0]].bag.vertices)
    requires Keyed(ChildTable(nodes, k, 0), nodes[nodes[k].prev[0]].bag)
    ensures Ready(nodes, k, g)
  {
    var b, c, v := nodes[k].bag, nodes[nodes[k].prev[0]].bag, nodes[k].kind.vertex;
    InRangeMember(g, b.vertices, v);
    forall s | s in Powerset(b) ensures EntryReady(nodes, k, g, s) {
      PowersetBounded(b, s, g, |g.weights|);
      SubsetMinus(b, c, v, s);
    }
  }

  /** A Join node whose children's tables are keyed by their bags and sound
      can be tabulated: soundness keeps the sum from going below zero. */
  lemma JoinReady(nodes: seq<Node>, g: Graph, k: nat)
    requires k < |nodes| && nodes[k].kind.Join? && HasChild(nodes, k, 0) && HasChild(nodes, k, 1)
    requires NoDup(nodes[k].bag.vertices) && InRange(g, nodes[k].bag.vertices)
    requires NoDup(nodes[nodes[k].prev[0]].bag.vertices) && Fits(nodes[k], nodes[nodes[k].prev[0]].bag.vertices)
    requires NoDup(nodes[nodes[k].prev[1]].bag.vertices) && Fits(nodes[k], nodes[nodes[k].prev[1]].bag.vertices)
    requires Keyed(ChildTable(nodes, k, 0), nodes[nodes[k].prev[0]].bag) && Sound(ChildTable(nodes, k, 0), g)
    requires Keyed(ChildTable(nodes, k, 1), nodes[nodes[k].prev[1]].bag)
    ensures Ready(nodes, k, g)
  {
    var b := nodes[k].bag;
    forall s | s in Powerset(b) ensures EntryReady(nodes, k, g, s) {
      PowersetBounded(b, s, g, |g.weights|);
      SubsetWithin(b, nodes[nodes[k].prev[0]].bag, s);
      SubsetWithin(b, nodes[nodes[k].prev[1]].bag, s);
      assert Bounds(g, s, ChildTable(nodes, k, 0)[s]);
    }
  }

  /** Once its children are filled, a node other than the root can be
      tabulated: every lookup its recurrence makes succeeds. */
  lemma ReadyAt(nodes: seq<Node>, shape: seq<Node>, leaves: seq<nat>, g: Graph, size: nat, k: nat)
    requires Solving(nodes, shape, leaves, g, size) && 1 <= k < |nodes| && ChildrenFilled(nodes, k)
    ensures Ready(nodes, k, g)
  {
    Local(nodes, shape, leaves, g, size, k);
    var b := nodes[k].bag;
    if nodes[k].kind.Leaf? {
      forall s | s in Powerset(b) ensures EntryReady(nodes, k, g, s) {
        PowersetBounded(b, s, g, |g.weights|);
      }
    } else {
      assert TableOK(nodes, nodes[k].prev[0], g);
      ChildKeys(nodes, g, k, 0);
      if nodes[k].kind.Forget? {
        ForgetReady(nodes, g, k);
      } else if nodes[k].kind.Introduce? {
        IntroduceReady(nodes, g, k);
      } else {
        assert TableOK(nodes, nodes[k].prev[1], g);
        ChildKeys(nodes, g, k, 1);
        JoinReady(nodes, g, k);
      }
    }
  }

  // ---------------------------------------------------------------------------
  // One update keeps the tables right

  /** The recurrence of node `p` reads only `p`'s kind, bag and children and
      its children's tables. */
  lemma RecurrenceFrame(nodes: seq<Node>, nodes': seq<Node>, p: nat, g: Graph)
    requires p < |nodes| == |nodes'| && Ready(nodes, p, g)
    requires nodes'[p].kind == nodes[p].kind && nodes'[p].bag == nodes[p].bag && nodes'[p].prev == nodes[p].prev
    requires forall c :: 0 <= c < |nodes[p].prev| ==>
      nodes[p].prev[c] < |nodes| && nodes'[nodes[p].prev[c]].maxIs == nodes[nodes[p].prev[c]].maxIs
    ensures Ready(nodes', p, g) && Recurrence(nodes', p, g) == Recurrence(nodes, p, g)
  {
    forall s | s in Powerset(nodes[p].bag)
      ensures EntryReady(nodes', p, g, s) && Entry(nodes', p, g, s) == Entry(nodes, p, g, s)
    {
      assert EntryReady(nodes, p, g, s);
      forall c | 0 <= c < |nodes[p].prev| ensures ChildTable(nodes', p, c) == ChildTable(nodes, p, c) {
      }
    }
  }

  /** The children of filled node `j` are filled, so an update at an unfilled
      node `k` leaves them and `j`'s recurrence alone. */
  lemma OtherKept(nodes: seq<Node>, g: Graph, j: nat, k: nat, table: map<seq<nat>, nat>)
    requires j < |nodes| && k < |nodes| && j != k && !Filled(nodes, k)
    requires TableOK(nodes, j, g)
    ensures TableOK(nodes[k := nodes[k].(maxIs := table)], j, g)
  {
    var nodes' := nodes[k := nodes[k].(maxIs := table)];
    assert nodes'[j] == nodes[j];
    if Filled(nodes, j) {
      forall c | 0 <= c < |nodes[j].prev|
        ensures nodes[j].prev[c] < |nodes| && nodes[j].prev[c] != k
        ensures nodes'[nodes[j].prev[c]] == nodes[nodes[j].prev[c]]
      {
        assert Filled(nodes, nodes[j].prev[c]);
      }
      RecurrenceFrame(nodes, nodes', j, g);
      assert ChildrenFilled(nodes', j);
    }
  }

  /** Tabulating an unfilled node whose children are filled fills it with
      its recurrence and keeps every other table right. */
  lemma UpdateFresh(nodes: seq<Node>, shape: seq<Node>, leaves: seq<nat>, g: Graph, size: nat, k: nat)
    requires Solving(nodes, shape, leaves, g, size) && 1 <= k < |nodes| && !Filled(nodes, k)
    requires ChildrenFilled(nodes, k) && Ready(nodes, k, g)
    ensures Solving(nodes[k := nodes[k].(maxIs := Recurrence(nodes, k, g))], shape, leaves, g, size)
  {
    Local(nodes, shape, leaves, g, size, k);
    var r := Recurrence(nodes, k, g);
    var nodes' := nodes[k := nodes[k].(maxIs := r)];
    forall c | 0 <= c < |nodes[k].prev|
      ensures nodes[k].prev[c] < |nodes| && nodes[k].prev[c] != k
      ensures nodes'[nodes[k].prev[c]] == nodes[nodes[k].prev[c]]
      ensures Sound(nodes[nodes[k].prev[c]].maxIs, g)
    {
      assert Filled(nodes, nodes[k].prev[c]) && TableOK(nodes, nodes[k].prev[c], g);
    }
    assert ChildrenSound(nodes, k, g);
    RecurrenceSound(nodes, k, g);
    RecurrenceFrame(nodes, nodes', k, g);
    assert [] in r;
    assert ChildrenFilled(nodes', k);
    assert TableOK(nodes', k, g);
    forall j | 0 <= j < |nodes'| ensures SameShape(nodes', shape, j) && TableOK(nodes', j, g) {
      assert SameShape(nodes, shape, j) && TableOK(nodes, j, g);
      if j != k {
        OtherKept(nodes, g, j, k, r);
      }
    }
  }

  /** What `update_entries` leaves at node `k` (its table merged with the
      recurrence) keeps the tables right, fills `k` and empties nothing. */
  lemma UpdateKeeps(nodes: seq<Node>, shape: seq<Node>, leaves: seq<nat>, g: Graph, size: nat, k: nat,
                    table: map<seq<nat>, nat>)
    requires Solving(nodes, shape, leaves, g, size) && 1 <= k < |nodes|
    requires ChildrenFilled(nodes, k) && Ready(nodes, k, g)
    requires table == nodes[k].maxIs + Recurrence(nodes, k, g)
    ensures Solving(nodes[k := nodes[k].(maxIs := table)], shape, leaves, g, size)
    ensures Filled(nodes[k := nodes[k].(maxIs := table)], k)
    ensures StaysFilled(nodes, nodes[k := nodes[k].(maxIs := table)])
  {
    Local(nodes, shape, leaves, g, size, k);
    assert TableOK(nodes, k, g);
    MergeRecurrence(nodes, k, g, table);
    if !Filled(nodes, k) {
      UpdateFresh(nodes, shape, leaves, g, size, k);
    }
    FillKeeps(nodes, k, table);
  }

  /** Merging the recurrence into a table that is empty or already the
      recurrence gives the recurrence, which holds the empty subset. */
  lemma MergeRecurrence(nodes: seq<Node>, k: nat, g: Graph, table: map<seq<nat>, nat>)
    requires k < |nodes| && !nodes[k].kind.Root? && TableOK(nodes, k, g) && Ready(nodes, k, g)
    requires table == nodes[k].maxIs + Recurrence(nodes, k, g)
    ensures table == Recurrence(nodes, k, g) && [] in table
    ensures Filled(nodes, k) ==> nodes[k := nodes[k].(maxIs := table)] == nodes
  {
    var r := Recurrence(nodes, k, g);
    assert [] in r;
    if Filled(nodes, k) {
      MergeSame(nodes[k].maxIs, r);
      SetSame(nodes, k);
    } else {
      MergeEmpty(nodes[k].maxIs, r);
    }
  }

  lemma MergeSame(m: map<seq<nat>, nat>, r: map<seq<nat>, nat>)
    requires m == r
    ensures m + r == r
  {
  }

  lemma MergeEmpty(m: map<seq<nat>, nat>, r: map<seq<nat>, nat>)
    requires |m| == 0
    ensures m + r == r
  {
    assert m == map[];
  }

  lemma SetSame(nodes: seq<Node>, k: nat)
    requires k < |nodes|
    ensures nodes[k := nodes[k].(maxIs := nodes[k].maxIs)] == nodes
  {
  }

  /** Giving node `k` a non-empty table empties no table and fills `k`. */
  lemma FillKeeps(nodes: seq<Node>, k: nat, table: map<seq<nat>, nat>)
    requires k < |nodes| && [] in table
    ensures Filled(nodes[k := nodes[k].(maxIs := table)], k)
    ensures StaysFilled(nodes, nodes[k := nodes[k].(maxIs := table)])
  {
    var nodes' := nodes[k := nodes[k].(maxIs := table)];
    forall j | 0 <= j < |nodes| && Filled(nodes, j) ensures Filled(nodes', j) {
      if j != k {
        assert nodes'[j] == nodes[j];
      }
    }
  }

  // ---------------------------------------------------------------------------
  // The largest entry

  /** `max_by_key` over the entries: whether there is one, and the largest. */
  method MaxEntry(table: map<seq<nat>, nat>) returns (found: bool, best: nat)
    ensures found <==> |table| != 0
    ensures found ==> (exists s :: s in table && table[s] == best) && forall s :: s in table ==> table[s] <= best
  {
    found, best := false, 0;
    var rest := table.Keys;
    while rest != {}
      invariant rest <= table.Keys
      invariant found <==> rest != table.Keys
      invariant found ==> exists s :: s in table && table[s] == best
      invariant forall s :: s in table && s !in rest ==> table[s] <= best
      decreases |rest|
    {
      var s :| s in rest;
      if !found || table[s] > best {
        found, best := true, table[s];
      }
      rest := rest - {s};
    }
    assert found <==> table.Keys != {};
  }

  /** `r` is what `compute_is` reports for a table: its largest entry, or 0
      when it is empty. */
  predicate IsAnswer(table: map<seq<nat>, nat>, r: nat) {
    && (|table| == 0 ==> r == 0)
    && (|table| != 0 ==> (exists s :: s in table && table[s] == r) && forall s :: s in table ==> table[s] <= r)
  }

  // ---------------------------------------------------------------------------
  // The solver

  /** The tables done for the finished leaves are filled. */
  predicate LeavesDone(nodes: seq<Node>, leaves: seq<nat>, finished: seq<bool>) {
    |finished| == |leaves| && forall m :: 0 <= m < |finished| && finished[m] ==> leaves[m] < |nodes| && Filled(nodes, leaves[m])
  }

  lemma LeavesDoneStay(before: seq<Node>, after: seq<Node>, leaves: seq<nat>, finished: seq<bool>)
    requires LeavesDone(before, leaves, finished) && StaysFilled(before, after)
    ensures LeavesDone(after, leaves, finished)
  {
    forall m | 0 <= m < |finished| && finished[m] ensures leaves[m] < |after| && Filled(after, leaves[m]) {
      assert Filled(before, leaves[m]);
    }
  }

  /** Exactly the first `n` leaves are finished. */
  predicate FinishedUpTo(finished: seq<bool>, n: nat) {
    n <= |finished| && forall k :: 0 <= k < |finished| ==> (finished[k] <==> k < n)
  }

  /** The first unfinished leaf is the next one in order, so finishing it
      finishes one more of the first leaves. */
  lemma FinishedNext(finished: seq<bool>, n: nat, current: nat)
    requires FinishedUpTo(finished, n) && current < |finished| && !finished[current]
    requires forall k :: 0 <= k < current ==> finished[k]
    ensures current == n && FinishedUpTo(finished[current := true], n + 1)
  {
    assert !finished[n];
  }

  /** The state of `compute_is`: the tables are right, exactly the first
      `|visited|` leaves are finished, in order, and their tables are
      filled. */
  predicate Scheduling(nodes: seq<Node>, shape: seq<Node>, leaves: seq<nat>, g: Graph, size: nat,
                       finished: seq<bool>, visited: seq<nat>) {
    && Solving(nodes, shape, leaves, g, size) && Propagated(nodes)
    && LeavesDone(nodes, leaves, finished)
    && FinishedUpTo(finished, |visited|) && (forall m :: 0 <= m < |visited| ==> visited[m] == m)
  }

  /** Before any leaf is finished, none has been visited. */
  lemma ScheduleStart(nodes: seq<Node>, shape: seq<Node>, leaves: seq<nat>, g: Graph, size: nat, finished: seq<bool>)
    requires Solving(nodes, shape, leaves, g, size) && Propagated(nodes) && |finished| == |leaves|
    requires forall k :: 0 <= k < |finished| ==> !finished[k]
    ensures Scheduling(nodes, shape, leaves, g, size, finished, [])
  {
  }

  /** Finishing the first unfinished leaf, once `traverse_up` from it has
      filled it and kept the tables right, keeps the state of `compute_is`
      and leaves fewer unfinished leaves. */
  lemma ScheduleStep(nodes: seq<Node>, nodes': seq<Node>, shape: seq<Node>, leaves: seq<nat>, g: Graph, size: nat,
                     finished: seq<bool>, visited: seq<nat>, current: nat)
    requires Scheduling(nodes, shape, leaves, g, size, finished, visited)
    requires current < |finished| && !finished[current] && forall k :: 0 <= k < current ==> finished[k]
    requires Solving(nodes', shape, leaves, g, size) && Propagated(nodes') && StaysFilled(nodes, nodes')
    requires leaves[current] < |nodes| && nodes[leaves[current]].kind.Leaf?
    requires !nodes[leaves[current]].kind.Root? && !nodes[leaves[current]].kind.Join? ==> Filled(nodes', leaves[current])
    ensures Scheduling(nodes', shape, leaves, g, size, finished[current := true], visited + [current])
    ensures CountFalse(finished[current := true]) < CountFalse(finished)
  {
    LeavesDoneStay(nodes, nodes', leaves, finished);
    FinishedNext(finished, |visited|, current);
    CountFalseSet(finished, current);
  }

  /** Once every leaf is finished, all were visited in order and all are
      filled. */
  lemma ScheduleDone(nodes: seq<Node>, shape: seq<Node>, leaves: seq<nat>, g: Graph, size: nat,
                     finished: seq<bool>, visited: seq<nat>)
    requires Scheduling(nodes, shape, leaves, g, size, finished, visited)
    requires forall k :: 0 <= k < |finished| ==> finished[k]
    ensures |visited| == |leaves| && Solving(nodes, shape, leaves, g, size) && Propagated(nodes)
    ensures forall k :: 1 <= k < |nodes| ==> Filled(nodes, k)
  {
    if |finished| > 0 {
      assert finished[|finished| - 1];
    }
    FilledFrom(nodes, shape, leaves, g, size, 1);
  }

  /** Leaf number `m` is a Leaf node, so `traverse_up` can start there. */
  lemma LeafStart(nodes: seq<Node>, shape: seq<Node>, leaves: seq<nat>, g: Graph, size: nat, m: nat)
    requires Solving(nodes, shape, leaves, g, size) && m < |leaves|
    ensures leaves[m] < |nodes| && nodes[leaves[m]].kind.Leaf? && Climbable(nodes, leaves[m])
    ensures ChildrenInRange(nodes, leaves[m])
  {
    assert LeafListed(leaves, shape, leaves[m]);
    assert SameShape(nodes, shape, leaves[m]) && Full(shape, leaves[m]);
  }

  /** The answer of the solver, the largest entry of node 1, is 0 or at least
      the weight of an independent set. */
  lemma AnswerSound(nodes: seq<Node>, shape: seq<Node>, leaves: seq<nat>, g: Graph, size: nat, r: nat)
    requires Solving(nodes, shape, leaves, g, size) && IsAnswer(nodes[1].maxIs, r)
    ensures r == 0 || exists s :: s in nodes[1].maxIs && InRange(g, s) && IsIndependent(g, s) && WeightOfSet(g, s) <= r
  {
    assert TableOK(nodes, 1, g);
    if r != 0 {
      var s :| s in nodes[1].maxIs && nodes[1].maxIs[s] == r;
      assert InRange(g, s) && Bounds(g, s, r);
    }
  }

  /** Once filled, node 1 holds the table the recurrence gives it, keyed by
      every subset of its bag. */
  lemma NodeOneTable(nodes: seq<Node>, shape: seq<Node>, leaves: seq<nat>, g: Graph, size: nat)
    requires Solving(nodes, shape, leaves, g, size) && Filled(nodes, 1)
    ensures Ready(nodes, 1, g) && nodes[1].maxIs == Recurrence(nodes, 1, g)
    ensures Keyed(nodes[1].maxIs, nodes[1].bag)
  {
    assert TableOK(nodes, 1, g);
  }

  /** Once every node but the root is filled, `get_solution` can walk down
      the whole tree with `n` rejected flags, for any `n` covering the
      vertices below `size`: every lookup it makes finds its subset. */
  lemma SolvedTraceable(nodes: seq<Node>, shape: seq<Node>, leaves: seq<nat>, g: Graph, size: nat, n: nat)
    requires Solving(nodes, shape, leaves, g, size) && size <= n
    requires forall k :: 1 <= k < |nodes| ==> Filled(nodes, k)
    ensures Traceable(nodes, g, n)
  {
    forall i | 0 <= i < |nodes| ensures NodeTraceable(nodes, i, g, n) {
      SolvedNode(nodes, shape, leaves, g, size, n, i);
    }
  }

  /** Node `i` of a solved tree can be walked down from. */
  lemma SolvedNode(nodes: seq<Node>, shape: seq<Node>, leaves: seq<nat>, g: Graph, size: nat, n: nat, i: nat)
    requires Solving(nodes, shape, leaves, g, size) && size <= n && i < |nodes|
    requires forall k :: 1 <= k < |nodes| ==> Filled(nodes, k)
    ensures NodeTraceable(nodes, i, g, n)
  {
    if i == 0 {
      SolvedRoot(nodes, shape, leaves, g, size, n);
    } else {
      SolvedBelow(nodes, shape, leaves, g, size, n, i);
    }
  }

  /** A node of a solved tree other than the root can be walked down from:
      its bag and the tables below it hold what its kind looks up. */
  lemma SolvedBelow(nodes: seq<Node>, shape: seq<Node>, leaves: seq<nat>, g: Graph, size: nat, n: nat, i: nat)
    requires Solving(nodes, shape, leaves, g, size) && size <= n && 1 <= i < |nodes|
    requires forall k :: 1 <= k < |nodes| ==> Filled(nodes, k)
    ensures NodeTraceable(nodes, i, g, n)
  {
    Local(nodes, shape, leaves, g, size, i);
    assert TableOK(nodes, i, g);
    SolvedKeys(nodes, g, i);
    var b := nodes[i].bag.vertices;
    forall k | 0 <= k < |b| ensures b[k] < n {
      assert b[k] in b;
    }
    match nodes[i].kind
    case Leaf =>
    case Forget(v) =>
      var c := nodes[i].prev[0];
      SolvedChild(nodes, shape, leaves, g, size, i, 0);
      Local(nodes, shape, leaves, g, size, c);
      assert v in nodes[c].bag.vertices;
    case Introduce(v) =>
      InRangeMember(g, b, v);
    case Join =>
      SolvedChild(nodes, shape, leaves, g, size, i, 0);
      SolvedChild(nodes, shape, leaves, g, size, i, 1);
  }

  /** A filled node other than the root has every subset of its bag in its
      table. */
  lemma SolvedKeys(nodes: seq<Node>, g: Graph, i: nat)
    requires i < |nodes| && TableOK(nodes, i, g) && Filled(nodes, i)
    ensures forall s :: s in Powerset(nodes[i].bag) ==> s in nodes[i].maxIs
  {
  }

  /** The root of a solved tree can be walked down from: its bag is empty. */
  lemma SolvedRoot(nodes: seq<Node>, shape: seq<Node>, leaves: seq<nat>, g: Graph, size: nat, n: nat)
    requires Solving(nodes, shape, leaves, g, size)
    ensures NodeTraceable(nodes, 0, g, n)
  {
    assert SameShape(nodes, shape, 0) && ChildrenOf(shape, 0);
  }

  /** In a solved tree, the table of child `c` of a Forget or Join node `i`
      holds every subset of `i`'s bag. */
  lemma SolvedChild(nodes: seq<Node>, shape: seq<Node>, leaves: seq<nat>, g: Graph, size: nat, i: nat, c: nat)
    requires Solving(nodes, shape, leaves, g, size) && 1 <= i < |nodes| && (nodes[i].kind.Forget? || nodes[i].kind.Join?)
    requires forall k :: 1 <= k < |nodes| ==> Filled(nodes, k)
    requires c < |nodes[i].prev|
    ensures HasChild(nodes, i, c) && forall s :: s in Powerset(nodes[i].bag) ==> s in ChildTable(nodes, i, c)
  {
    Local(nodes, shape, leaves, g, size, i);
    var j := nodes[i].prev[c];
    assert TableOK(nodes, j, g);
    ChildKeys(nodes, g, i, c);
    Covered(nodes[i].bag, nodes[j].bag, ChildTable(nodes, i, c));
  }

  /** A table keyed by bag `c` holds every subset of a bag `b` whose
      vertices are among `c`'s. */
  lemma Covered(b: Bag, c: Bag, table: map<seq<nat>, nat>)
    requires NoDup(b.vertices) && NoDup(c.vertices) && Elements(b.vertices) <= Elements(c.vertices)
    requires Keyed(table, c)
    ensures forall s :: s in Powerset(b) ==> s in table
  {
    forall s | s in Powerset(b) ensures s in table {
      SubsetWithin(b, c, s);
    }
  }

  class ISSolver {
    const td: TreeDecomposition
    const graph: Graph
    ghost const size: nat
    ghost const shape: seq<Node>

    ghost predicate Valid()
      reads this, td
    {
      Solving(td.nodes, shape, td.leaves, graph, size) && Propagated(td.nodes)
    }

    /** `new`: a solver over a built tree whose tables are still empty. */
    constructor(td: TreeDecomposition, graph: Graph, ghost size: nat)
      requires Tree(td.nodes, td.leaves, size) && |td.nodes| >= 2 && GraphOK(graph, size)
      ensures this.td == td && this.graph == graph && this.shape == td.nodes && Valid()
    {
      this.td := td;
      this.graph := graph;
      this.size := size;
      this.shape := td.nodes;
      new;
      StartSolving(td.nodes, td.leaves, graph, size);
    }

    /** `solve`: runs the solver over a built tree and returns the largest
        entry of node 1, or 0; every leaf's table is filled on the way. */
    static method Solve(td: TreeDecomposition, graph: Graph, ghost size: nat) returns (r: nat)
      requires Tree(td.nodes, td.leaves, size) && |td.nodes| >= 2 && GraphOK(graph, size)
      modifies td
      ensures |td.nodes| >= 2 && IsAnswer(td.nodes[1].maxIs, r)
      ensures Ready(td.nodes, 1, graph) && td.nodes[1].maxIs == Recurrence(td.nodes, 1, graph)
      ensures Keyed(td.nodes[1].maxIs, td.nodes[1].bag)
      ensures r == 0 || exists s :: s in td.nodes[1].maxIs && InRange(graph, s) && IsIndependent(graph, s) && WeightOfSet(graph, s) <= r
      ensures Traceable(td.nodes, graph, Size(graph))
    {
      var solver := new ISSolver(td, graph, size);
      ghost var visited;
      r, visited := solver.ComputeIs();
    }

    /** `compute_is`: `traverse_up` from each leaf in turn, the first
        unfinished one first, then the largest entry of node 1. */
    method ComputeIs() returns (r: nat, ghost visited: seq<nat>)
      requires Valid()
      modifies td
      ensures Valid() && td.leaves == old(td.leaves) && |td.nodes| >= 2
      ensures |visited| == |td.leaves| && forall m :: 0 <= m < |visited| ==> visited[m] == m
      ensures forall k :: 1 <= k < |td.nodes| ==> Filled(td.nodes, k)
      ensures Ready(td.nodes, 1, graph) && td.nodes[1].maxIs == Recurrence(td.nodes, 1, graph)
      ensures Keyed(td.nodes[1].maxIs, td.nodes[1].bag)
      ensures IsAnswer(td.nodes[1].maxIs, r)
      ensures r == 0 || exists s :: s in td.nodes[1].maxIs && InRange(graph, s) && IsIndependent(graph, s) && WeightOfSet(graph, s) <= r
      ensures Traceable(td.nodes, graph, Size(graph))
    {
      var finished := new bool[|td.Leaves()|](_ => false);
      ghost var leaves := td.leaves;
      visited := [];
      ScheduleStart(td.nodes, shape, leaves, graph, size, finished[..]);
      while exists k :: 0 <= k < finished.Length && !finished[k]
        invariant td.leaves == leaves
        invariant Scheduling(td.nodes, shape, leaves, graph, size, finished[..], visited)
        decreases CountFalse(finished[..])
      {
        ghost var before, nodes := finished[..], td.nodes;
        var current := FirstUntreated(finished[..]);
        LeafStart(td.nodes, shape, leaves, graph, size, current);
        ghost var stop: nat, path: seq<nat>;
        stop, path := TraverseUp(td.Leaves()[current]);
        ScheduleStep(nodes, td.nodes, shape, leaves, graph, size, before, visited, current);
        finished[current] := true;
        assert finished[..] == before[current := true];
        visited := visited + [current];
      }
      ScheduleDone(td.nodes, shape, leaves, graph, size, finished[..], visited);
      var found, best := MaxEntry(td.nodes[1].maxIs);
      r := if found then best else 0;
      AnswerSound(td.nodes, shape, leaves, graph, size, r);
      NodeOneTable(td.nodes, shape, leaves, graph, size);
      SolvedTraceable(td.nodes, shape, leaves, graph, size, Size(graph));
    }

    /** `traverse_up`: while the node reached can be traversed, tabulates it
        and goes to its parent. It stops at `stop`, the first node on the way
        up that cannot be traversed (the root, or a Join with a child still
        unfilled); `path` is the way from `start` up to `stop`, every node on
        it is filled, and no other node changes. A start that is not the root
        or a Join is filled on return, and no table is emptied. */
    method TraverseUp(start: nat) returns (ghost stop: nat, ghost path: seq<nat>)
      requires Valid() && start < |td.nodes| && Climbable(td.nodes, start) && ChildrenInRange(td.nodes, start)
      modifies td
      ensures Valid() && td.leaves == old(td.leaves) && start < |td.nodes| == |old(td.nodes)|
      ensures StaysFilled(old(td.nodes), td.nodes)
      ensures !old(td.nodes[start].kind).Root? && !old(td.nodes[start].kind).Join? ==> Filled(td.nodes, start)
      ensures stop < |td.nodes| && ChildrenInRange(td.nodes, stop) && !CanTraverse(td.nodes[stop], td.nodes)
      ensures |path| == 0 ==> stop == start
      ensures |path| != 0 ==> path[0] == start && path[|path| - 1] < |td.nodes| && td.nodes[path[|path| - 1]].next == stop
      ensures forall j :: 0 <= j < |path| - 1 ==> path[j] < |td.nodes| && td.nodes[path[j]].next == path[j + 1]
      ensures forall j :: 0 <= j < |path| ==> path[j] < |td.nodes| && Filled(td.nodes, path[j])
      ensures forall k :: 0 <= k < |td.nodes| && td.nodes[k] != old(td.nodes)[k] ==> k in path
    {
      ghost var nodes0, leaves := td.nodes, td.leaves;
      ClimbStart(nodes0, shape, leaves, graph, size, start);
      var cur: nat := start;
      path := [];
      while CanTraverse(td.nodes[cur], td.nodes)
        invariant td.leaves == leaves
        invariant Climbing(nodes0, td.nodes, shape, leaves, graph, size, start, cur)
        invariant Walked(nodes0, td.nodes, start, cur, path)
        decreases cur
      {
        ghost var nodes := td.nodes;
        ClimbReady(nodes0, nodes, shape, leaves, graph, size, start, cur);
        var table := UpdateEntries(td.nodes, cur, graph);
        ClimbStep(nodes0, nodes, shape, leaves, graph, size, start, cur, table);
        WalkStep(nodes0, nodes, start, cur, path, table);
        var next := td.nodes[cur].next;
        td.nodes := td.nodes[cur := td.nodes[cur].(maxIs := table)];
        path := path + [cur];
        cur := next;
      }
      stop := cur;
      ClimbDone(nodes0, td.nodes, shape, leaves, graph, size, start, cur);
    }
  }
}
