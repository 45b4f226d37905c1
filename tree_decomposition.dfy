/** The nice tree decompositions built from the input decomposition: each
    tree is a sequence of nodes linked by index, with a dummy root at index 0.
    A raw bag with several neighbours becomes a Join node, one without
    neighbours a Leaf, and the step from a raw bag to its single neighbour a
    chain of Introduce nodes (one per vertex the neighbour lacks) followed by
    Forget nodes (one per vertex the neighbour adds). */
module TreeDecompositions {
  import opened Seqs
  import opened Text
  import opened Bags
  import opened InputDecomposition
  import opened Nodes

  // ---------------------------------------------------------------------------
  // The shape of a built tree
  //
  // Each quantified property is stated of one index through a named
  // predicate, so that it is brought into a proof only where it is named.

  /** Every vertex of `vs` is below `size`. */
  predicate Below(vs: seq<nat>, size: nat) {
    forall x :: x in vs ==> x < size
  }

  /** The links: node 0 is the root (empty bag, parent `usize::MAX`), every
      other node's parent link is sound and every node's children list is. */
  predicate Linked(nodes: seq<Node>) {
    && |nodes| >= 1
    && nodes[0].kind.Root? && nodes[0].bag.vertices == [] && nodes[0].next == UsizeMax
    && (forall j :: 1 <= j < |nodes| ==> ParentLinked(nodes, j))
    && (forall k :: 0 <= k < |nodes| ==> ChildrenOf(nodes, k))
  }

  /** Node `j` is no root, its parent comes before it and lists it. */
  predicate ParentLinked(nodes: seq<Node>, j: nat)
    requires j < |nodes|
  {
    !nodes[j].kind.Root? && nodes[j].next < j && j in nodes[nodes[j].next].prev
  }

  /** The children node `k` lists are later nodes, in increasing order,
      whose parent is `k`. */
  predicate ChildrenOf(nodes: seq<Node>, k: nat)
    requires k < |nodes|
  {
    && Increasing(nodes[k].prev)
    && forall m :: 0 <= m < |nodes[k].prev| ==>
         k < nodes[k].prev[m] < |nodes| && nodes[nodes[k].prev[m]].next == k
  }

  /** A child with bag `vs` fits under `parent`: below an Introduce(v) node,
      whose bag holds `v`, the bag loses `v`; below a Forget(v) node, whose
      bag lacks `v`, it gains `v`; below a Join it is the same (all as sets
      of vertices). */
  predicate Fits(parent: Node, vs: seq<nat>) {
    match parent.kind
    case Introduce(v) => v in parent.bag.vertices && Elements(vs) == Elements(parent.bag.vertices) - {v}
    case Forget(v) => v !in parent.bag.vertices && Elements(vs) == Elements(parent.bag.vertices) + {v}
    case Join => Elements(vs) == Elements(parent.bag.vertices)
    case Leaf => true
    case Root => true
  }

  /** Every child fits under its parent. */
  predicate Shaped(nodes: seq<Node>) {
    forall k :: 0 <= k < |nodes| ==> ChildrenFit(nodes, k)
  }

  predicate ChildrenFit(nodes: seq<Node>, k: nat)
    requires k < |nodes|
  {
    forall m :: 0 <= m < |nodes[k].prev| && nodes[k].prev[m] < |nodes| ==>
      Fits(nodes[k], nodes[nodes[k].prev[m]].bag.vertices)
  }

  /** `leaves` lists exactly the Leaf nodes, in creation order. */
  predicate LeavesOf(leaves: seq<nat>, nodes: seq<Node>) {
    && Increasing(leaves)
    && (forall m :: 0 <= m < |leaves| ==> leaves[m] < |nodes|)
    && (forall k :: 0 <= k < |nodes| ==> LeafListed(leaves, nodes, k))
  }

  predicate LeafListed(leaves: seq<nat>, nodes: seq<Node>, k: nat)
    requires k < |nodes|
  {
    nodes[k].kind.Leaf? <==> k in leaves
  }

  /** Node `k`'s bag repeats no vertex and names vertices below `size`, and
      its table is still empty. */
  predicate NodeOK(nodes: seq<Node>, k: nat, size: nat)
    requires k < |nodes|
  {
    NoDup(nodes[k].bag.vertices) && Below(nodes[k].bag.vertices, size) && |nodes[k].maxIs| == 0
  }

  /** A node has as many children as its kind reads: none at a Leaf, one at
      the root and at Introduce and Forget nodes, two at a Join. */
  predicate Arity(n: Node) {
    match n.kind
    case Leaf => |n.prev| == 0
    case Join => |n.prev| == 2
    case _ => |n.prev| == 1
  }

  predicate Full(nodes: seq<Node>, k: nat)
    requires k < |nodes|
  {
    Arity(nodes[k])
  }

  /** A partly built tree over vertices below `size`. */
  predicate Building(nodes: seq<Node>, leaves: seq<nat>, size: nat) {
    && Linked(nodes) && Shaped(nodes) && LeavesOf(leaves, nodes)
    && forall k :: 0 <= k < |nodes| ==> NodeOK(nodes, k, size)
  }

  /** A finished tree: every node has its full set of children. */
  predicate Tree(nodes: seq<Node>, leaves: seq<nat>, size: nat) {
    && Building(nodes, leaves, size)
    && forall k :: 0 <= k < |nodes| ==> Full(nodes, k)
  }

  /** `nodes'` extends `nodes` by a subtree hung under node `last`: its first
      new node is `last`'s one new child, and no other old node changes. */
  predicate Adds(nodes: seq<Node>, nodes': seq<Node>, last: nat) {
    && last < |nodes| < |nodes'|
    && nodes'[|nodes|].next == last
    && nodes'[last] == AddToPrev(nodes[last], |nodes|)
    && forall k :: 0 <= k < |nodes| && k != last ==> Kept(nodes, nodes', k)
  }

  predicate Kept(nodes: seq<Node>, nodes': seq<Node>, k: nat)
    requires k < |nodes| && k < |nodes'|
  {
    nodes'[k] == nodes[k]
  }

  // ---------------------------------------------------------------------------
  // Hanging one node under its parent

  /** Pushes `n` and appends its index to its parent's children. */
  function Attach(nodes: seq<Node>, n: Node): (r: seq<Node>)
    requires n.next < |nodes|
    ensures |r| == |nodes| + 1
  {
    var ns := nodes + [n];
    ns[n.next := AddToPrev(ns[n.next], |nodes|)]
  }

  /** A node hung under `n.next` is the one new node, and only its parent
      changes. */
  lemma AttachAdds(nodes: seq<Node>, n: Node)
    requires n.next < |nodes|
    ensures Adds(nodes, Attach(nodes, n), n.next)
    ensures Attach(nodes, n)[|nodes|] == n
  {
    var r := Attach(nodes, n);
    forall k | 0 <= k < |nodes| && k != n.next ensures Kept(nodes, r, k) {
    }
  }

  /** A new childless node that fits under its parent and has a proper bag
      keeps a partly built tree one: the links, the shape, the leaves (a
      Leaf is recorded) and the bags. */
  lemma AttachBuilding(nodes: seq<Node>, leaves: seq<nat>, size: nat, n: Node, leaves': seq<nat>)
    requires Building(nodes, leaves, size)
    requires n.next < |nodes| && n.prev == [] && !n.kind.Root?
    requires Fits(nodes[n.next], n.bag.vertices)
    requires NoDup(n.bag.vertices) && Below(n.bag.vertices, size) && |n.maxIs| == 0
    requires leaves' == if n.kind.Leaf? then leaves + [|nodes|] else leaves
    ensures Building(Attach(nodes, n), leaves', size)
  {
    AttachLinked(nodes, n);
    AttachShaped(nodes, n);
    AttachLeaves(nodes, leaves, n, leaves');
    AttachBags(nodes, size, n);
  }

  lemma AttachBags(nodes: seq<Node>, size: nat, n: Node)
    requires n.next < |nodes|
    requires forall k :: 0 <= k < |nodes| ==> NodeOK(nodes, k, size)
    requires NoDup(n.bag.vertices) && Below(n.bag.vertices, size) && |n.maxIs| == 0
    ensures forall k :: 0 <= k < |Attach(nodes, n)| ==> NodeOK(Attach(nodes, n), k, size)
  {
    var r := Attach(nodes, n);
    forall k | 0 <= k < |r| ensures NodeOK(r, k, size) {
      if k < |nodes| {
        assert NodeOK(nodes, k, size);
        assert r[k].bag == nodes[k].bag && r[k].maxIs == nodes[k].maxIs;
      }
    }
  }

  lemma AttachLinked(nodes: seq<Node>, n: Node)
    requires Linked(nodes)
    requires n.next < |nodes| && n.prev == [] && !n.kind.Root?
    ensures Linked(Attach(nodes, n))
  {
    var r := Attach(nodes, n);
    var p := n.next;
    forall j | 1 <= j < |r| ensures ParentLinked(r, j) {
      if j < |nodes| {
        assert ParentLinked(nodes, j);
        assert r[j].next == nodes[j].next;
        assert nodes[nodes[j].next].prev <= r[r[j].next].prev;
      }
    }
    forall k | 0 <= k < |r| ensures ChildrenOf(r, k) {
      if k < |nodes| {
        assert ChildrenOf(nodes, k);
        if k == p {
          assert r[k].prev == nodes[k].prev + [|nodes|];
        }
      }
    }
  }

  lemma AttachShaped(nodes: seq<Node>, n: Node)
    requires Linked(nodes) && Shaped(nodes)
    requires n.next < |nodes| && n.prev == []
    requires Fits(nodes[n.next], n.bag.vertices)
    ensures Shaped(Attach(nodes, n))
  {
    var r := Attach(nodes, n);
    forall k | 0 <= k < |r| ensures ChildrenFit(r, k) {
      if k < |nodes| {
        assert ChildrenOf(nodes, k) && ChildrenFit(nodes, k);
        forall m | 0 <= m < |nodes[k].prev| ensures r[k].prev[m] == nodes[k].prev[m] < |nodes| {
        }
      }
    }
  }

  lemma AttachLeaves(nodes: seq<Node>, leaves: seq<nat>, n: Node, leaves': seq<nat>)
    requires LeavesOf(leaves, nodes)
    requires n.next < |nodes|
    requires leaves' == if n.kind.Leaf? then leaves + [|nodes|] else leaves
    ensures LeavesOf(leaves', Attach(nodes, n))
  {
    var r := Attach(nodes, n);
    forall k | 0 <= k < |r| ensures LeafListed(leaves', r, k) {
      if k < |nodes| {
        assert LeafListed(leaves, nodes, k);
        assert r[k].kind == nodes[k].kind;
        assert k in leaves' <==> k in leaves;
      }
    }
    if n.kind.Leaf? {
      forall i, j | 0 <= i < j < |leaves'| ensures leaves'[i] < leaves'[j] {
        if j == |leaves| {
          assert leaves'[i] == leaves[i] < |nodes|;
        }
      }
    }
  }

  /** A Join node hung under `last`, with two subtrees hung under it in
      turn, is a subtree hung under `last` whose nodes all have their
      children. */
  lemma JoinThen(nodes: seq<Node>, join: Node, a: seq<Node>, b: seq<Node>, fin: seq<Node>)
    requires join.next < |nodes| && join.prev == [] && join.kind.Join?
    requires a == Attach(nodes, join)
    requires Adds(a, b, |nodes|) && Adds(b, fin, |nodes|)
    requires forall k :: |a| <= k < |b| ==> Full(b, k)
    requires forall k :: |b| <= k < |fin| ==> Full(fin, k)
    ensures Adds(nodes, fin, join.next)
    ensures forall k :: |nodes| <= k < |fin| ==> Full(fin, k)
    ensures fin[|nodes|].bag == join.bag
  {
    AttachAdds(nodes, join);
    var last := join.next;
    assert Kept(a, b, last) && Kept(b, fin, last);
    forall k | 0 <= k < |nodes| && k != last ensures Kept(nodes, fin, k) {
      assert Kept(nodes, a, k) && Kept(a, b, k) && Kept(b, fin, k);
    }
    forall k | |nodes| <= k < |fin| ensures Full(fin, k) {
      if k == |nodes| {
        assert fin[k].prev == [|a|, |b|];
      } else if k < |b| {
        assert Full(b, k) && Kept(b, fin, k);
      }
    }
  }

  // ---------------------------------------------------------------------------
  // Counting treated bags (for termination)

  /** The number of bags not yet treated. */
  function CountFalse(s: seq<bool>): (r: nat)
    ensures r <= |s|
    ensures r == 0 <==> forall k :: 0 <= k < |s| ==> s[k]
  {
    if s == [] then 0 else (if s[0] then 0 else 1) + CountFalse(s[1..])
  }

  /** Treating a bag lowers the count by one, unless it was treated. */
  lemma {:induction false} CountFalseSet(s: seq<bool>, k: nat)
    requires k < |s|
    ensures CountFalse(s[k := true]) == CountFalse(s) - (if s[k] then 0 else 1)
  {
    if k > 0 {
      assert s[k := true][1..] == s[1..][k - 1 := true];
      CountFalseSet(s[1..], k - 1);
    }
  }

  /** `after` has every bag `before` has treated, and maybe more. */
  predicate MoreTreated(before: seq<bool>, after: seq<bool>) {
    |before| == |after| && forall k :: 0 <= k < |before| && before[k] ==> after[k]
  }

  lemma MoreTreatedThen(a: seq<bool>, b: seq<bool>, c: seq<bool>)
    requires MoreTreated(a, b) && MoreTreated(b, c)
    ensures MoreTreated(a, c)
  {
  }

  /** Treating bags never raises the count, and leaves it unchanged only
      when no flag changed. */
  lemma {:induction false} CountFalseGrow(s: seq<bool>, t: seq<bool>)
    requires MoreTreated(s, t)
    ensures CountFalse(t) <= CountFalse(s)
    ensures CountFalse(t) == CountFalse(s) ==> t == s
  {
    if s != [] {
      CountFalseGrow(s[1..], t[1..]);
      if CountFalse(t) == CountFalse(s) {
        assert t[0] == s[0];
        assert t == [t[0]] + t[1..] && s == [s[0]] + s[1..];
      }
    }
  }

  /** The number of entries of `ns` that are treated. */
  function CountTreated(ns: seq<nat>, treated: seq<bool>): nat
    requires forall k :: 0 <= k < |ns| ==> ns[k] < |treated|
  {
    if ns == [] then 0 else (if treated[ns[0]] then 1 else 0) + CountTreated(ns[1..], treated)
  }

  /** The entries of `xs` not yet treated, in order. */
  function Untreated(xs: seq<nat>, treated: seq<bool>): (r: seq<nat>)
    requires forall k :: 0 <= k < |xs| ==> xs[k] < |treated|
    ensures forall k :: 0 <= k < |r| ==> r[k] < |treated|
    ensures forall x :: x in r <==> x in xs && !treated[x]
    ensures CountTreated(r, treated) == 0
  {
    if xs == [] then []
    else
      var tail := Untreated(xs[1..], treated);
      assert forall x :: x in xs <==> x == xs[0] || x in xs[1..];
      if treated[xs[0]] then tail else [xs[0]] + tail
  }

  // ---------------------------------------------------------------------------
  // create_nodes

  /** The input decomposition is usable: one adjacency list per bag, every
      entry a bag index, and every bag a set of vertices below `size`. */
  predicate InputOK(input: InputTD, size: nat) {
    && |input.edges| == |input.bags|
    && (forall x, k :: 0 <= x < |input.edges| && 0 <= k < |input.edges[x]| ==> input.edges[x][k] < |input.bags|)
    && forall b :: 0 <= b < |input.bags| ==> RawBagOK(input, b, size)
  }

  predicate RawBagOK(input: InputTD, b: nat, size: nat)
    requires b < |input.bags|
  {
    NoDup(input.bags[b].vertices) && Below(input.bags[b].vertices, size)
  }

  /** What `create_nodes` leaves behind: a partly built tree that extends
      `nodes` by a subtree hung under `last`, whose nodes all have their
      children and whose first node holds the vertices `vs`. */
  predicate Created(nodes: seq<Node>, last: nat, vs: set<nat>, size: nat, nodes': seq<Node>, leaves': seq<nat>) {
    && Building(nodes', leaves', size)
    && Adds(nodes, nodes', last)
    && (forall k :: |nodes| <= k < |nodes'| ==> Full(nodes', k))
    && Elements(nodes'[|nodes|].bag.vertices) == vs
  }

  /** `create_nodes`: hangs under node `last` the nice subtree of raw bag
      `curr` whose raw neighbours still to visit are `ns`, and marks the bags
      it visits treated. More than one neighbour: a Join node with the bag,
      and a subtree for the first neighbour and one for the rest. None: a
      Leaf. One: the Introduce and Forget chain to the neighbour, then the
      neighbour's subtree over its untreated neighbours. */
  method CreateNodes(input: InputTD, ghost size: nat, treated: array<bool>, nodes: seq<Node>, leaves: seq<nat>,
                     curr: nat, last: nat, ns: seq<nat>)
    returns (nodes': seq<Node>, leaves': seq<nat>)
    requires InputOK(input, size) && treated.Length == Len(input)
    requires curr < Len(input) && forall k :: 0 <= k < |ns| ==> ns[k] < Len(input)
    requires Building(nodes, leaves, size) && last < |nodes|
    requires Fits(nodes[last], input.bags[curr].vertices)
    modifies treated
    ensures Created(nodes, last, Elements(input.bags[curr].vertices), size, nodes', leaves')
    ensures treated[curr]
    ensures MoreTreated(old(treated[..]), treated[..])
    decreases CountFalse(treated[..]), if treated[curr] then 1 else 0, CountTreated(ns, treated[..]), |ns|, 1
  {
    if |ns| > 1 {
      nodes', leaves' := CreateJoin(input, size, treated, nodes, leaves, curr, last, ns);
    } else if |ns| == 0 {
      var leaf := NewNode(GetBag(input, curr), Leaf, last);
      assert RawBagOK(input, curr, size);
      LeafCreated(nodes, leaves, size, leaf);
      leaves' := leaves + [|nodes|];
      nodes' := Attach(nodes, leaf);
      treated[curr] := true;
    } else {
      assert ns == [ns[0]];
      nodes', leaves' := CreateChain(input, size, treated, nodes, leaves, curr, last, ns[0]);
    }
  }

  /** The Join case of `create_nodes`. */
  method CreateJoin(input: InputTD, ghost size: nat, treated: array<bool>, nodes: seq<Node>, leaves: seq<nat>,
                    curr: nat, last: nat, ns: seq<nat>)
    returns (nodes': seq<Node>, leaves': seq<nat>)
    requires InputOK(input, size) && treated.Length == Len(input)
    requires curr < Len(input) && forall k :: 0 <= k < |ns| ==> ns[k] < Len(input)
    requires Building(nodes, leaves, size) && last < |nodes|
    requires Fits(nodes[last], input.bags[curr].vertices)
    requires |ns| > 1
    modifies treated
    ensures Created(nodes, last, Elements(input.bags[curr].vertices), size, nodes', leaves')
    ensures treated[curr]
    ensures MoreTreated(old(treated[..]), treated[..])
    decreases CountFalse(treated[..]), if treated[curr] then 1 else 0, CountTreated(ns, treated[..]), |ns|, 0
  {
    var join := NewNode(GetBag(input, curr), Join, last);
    assert RawBagOK(input, curr, size);
    JoinStart(nodes, leaves, size, join);
    var a := Attach(nodes, join);
    var lastIdx := |a| - 1;
    assert CountTreated(ns, treated[..]) == CountTreated([ns[0]], treated[..]) + CountTreated(ns[1..], treated[..]);
    var b, leavesB := CreateNodes(input, size, treated, a, leaves, curr, lastIdx, [ns[0]]);
    ghost var mid := treated[..];
    CountFalseGrow(old(treated[..]), mid);
    nodes', leaves' := CreateNodes(input, size, treated, b, leavesB, curr, lastIdx, ns[1..]);
    MoreTreatedThen(old(treated[..]), mid, treated[..]);
    JoinCreated(nodes, leaves, size, join, b, leavesB, nodes', leaves');
  }

  /** The one-neighbour case of `create_nodes`: the chain to the neighbour,
      the bag marked treated, then the neighbour's subtree over its
      untreated neighbours. */
  method CreateChain(input: InputTD, ghost size: nat, treated: array<bool>, nodes: seq<Node>, leaves: seq<nat>,
                     curr: nat, last: nat, neighborIdx: nat)
    returns (nodes': seq<Node>, leaves': seq<nat>)
    requires InputOK(input, size) && treated.Length == Len(input)
    requires curr < Len(input) && neighborIdx < Len(input)
    requires Building(nodes, leaves, size) && last < |nodes|
    requires Fits(nodes[last], input.bags[curr].vertices)
    modifies treated
    ensures Created(nodes, last, Elements(input.bags[curr].vertices), size, nodes', leaves')
    ensures treated[curr]
    ensures MoreTreated(old(treated[..]), treated[..])
    decreases CountFalse(treated[..]), if treated[curr] then 1 else 0, CountTreated([neighborIdx], treated[..]), 1, 0
  {
    var bag := GetBag(input, curr);
    var neighbor := GetBag(input, neighborIdx);
    assert RawBagOK(input, curr, size) && RawBagOK(input, neighborIdx, size);
    var chain, prevNodeIdx, workingBag := BuildChain(nodes, leaves, size, last, bag.vertices, neighbor.vertices);
    treated[curr] := true;
    CountFalseSet(old(treated[..]), curr);
    ghost var marked := treated[..];
    assert marked == old(treated[..])[curr := true];
    var rest := Untreated(input.edges[neighborIdx], treated[..]);
    nodes', leaves' := CreateNodes(input, size, treated, chain, leaves, neighborIdx, prevNodeIdx, rest);
    MoreTreatedThen(old(treated[..]), marked, treated[..]);
    ChainCreated(nodes, leaves, size, last, Elements(input.bags[curr].vertices), chain, prevNodeIdx, workingBag,
                 Elements(input.bags[neighborIdx].vertices), nodes', leaves');
  }

  /** The two chain loops of `create_nodes`, from the bag's vertices to the
      neighbour's: Introduce nodes for the vertices the neighbour lacks,
      then Forget nodes for those it adds. */
  method BuildChain(nodes: seq<Node>, ghost leaves: seq<nat>, ghost size: nat, last: nat, vs: seq<nat>, target: seq<nat>)
    returns (chain: seq<Node>, prevNodeIdx: nat, workingBag: seq<nat>)
    requires Building(nodes, leaves, size) && last < |nodes| && Fits(nodes[last], vs)
    requires NoDup(vs) && Below(vs, size) && NoDup(target) && Below(target, size)
    ensures ChainState(nodes, leaves, size, last, Elements(vs), chain, prevNodeIdx, workingBag)
    ensures Elements(workingBag) == Elements(target)
    ensures Building(chain, leaves, size) && prevNodeIdx < |chain| && Fits(chain[prevNodeIdx], target)
  {
    var toIntroduce := Minus(vs, target);
    var toForget := Minus(target, vs);
    ChainBegin(nodes, leaves, size, last, vs);
    chain, prevNodeIdx, workingBag := IntroduceChain(nodes, leaves, size, last, Elements(vs), nodes, last, vs, toIntroduce);
    ChainMiddle(vs, target, workingBag);
    chain, prevNodeIdx, workingBag := ForgetChain(nodes, leaves, size, last, Elements(vs), chain, prevNodeIdx, workingBag, toForget);
    ChainReady(nodes, leaves, size, last, chain, prevNodeIdx, workingBag, vs, target);
  }

  /** A leaf hung under its parent is a subtree created there. */
  lemma LeafCreated(nodes: seq<Node>, leaves: seq<nat>, size: nat, leaf: Node)
    requires Building(nodes, leaves, size) && leaf.next < |nodes| && Fits(nodes[leaf.next], leaf.bag.vertices)
    requires leaf == NewNode(leaf.bag, Leaf, leaf.next)
    requires NoDup(leaf.bag.vertices) && Below(leaf.bag.vertices, size)
    ensures Created(nodes, leaf.next, Elements(leaf.bag.vertices), size, Attach(nodes, leaf), leaves + [|nodes|])
  {
    AttachBuilding(nodes, leaves, size, leaf, leaves + [|nodes|]);
    AttachAdds(nodes, leaf);
  }

  /** A Join node with the bag fits where the bag does, and its children
      fit under it when they hold the same bag. */
  lemma JoinStart(nodes: seq<Node>, leaves: seq<nat>, size: nat, join: Node)
    requires Building(nodes, leaves, size) && join.next < |nodes| && Fits(nodes[join.next], join.bag.vertices)
    requires join == NewNode(join.bag, Join, join.next)
    requires NoDup(join.bag.vertices) && Below(join.bag.vertices, size)
    ensures Building(Attach(nodes, join), leaves, size)
    ensures Fits(Attach(nodes, join)[|nodes|], join.bag.vertices)
  {
    AttachBuilding(nodes, leaves, size, join, leaves);
    AttachAdds(nodes, join);
  }

  /** A Join node with two subtrees created under it in turn is a subtree
      created under its parent. */
  lemma JoinCreated(nodes: seq<Node>, leaves: seq<nat>, size: nat, join: Node, b: seq<Node>, leavesB: seq<nat>,
                    fin: seq<Node>, leavesF: seq<nat>)
    requires join.next < |nodes| && join == NewNode(join.bag, Join, join.next)
    requires Created(Attach(nodes, join), |nodes|, Elements(join.bag.vertices), size, b, leavesB)
    requires Created(b, |nodes|, Elements(join.bag.vertices), size, fin, leavesF)
    ensures Created(nodes, join.next, Elements(join.bag.vertices), size, fin, leavesF)
  {
    JoinThen(nodes, join, Attach(nodes, join), b, fin);
  }

  // ---------------------------------------------------------------------------
  // The Introduce and Forget chain

  /** The nodes `cur` adds to `nodes` form a (possibly empty) chain of
      Introduce and Forget nodes hung under `last`, each the one child of the
      one before, ending at `prev`, which has no child yet. */
  predicate Chain(nodes: seq<Node>, cur: seq<Node>, last: nat, prev: nat) {
    if |cur| == |nodes| then cur == nodes && prev == last
    else
      && Adds(nodes, cur, last)
      && prev == |cur| - 1
      && forall k :: |nodes| <= k < |cur| ==> ChainLink(cur, prev, k)
  }

  predicate ChainLink(cur: seq<Node>, prev: nat, k: nat)
    requires k < |cur|
  {
    (cur[k].kind.Introduce? || cur[k].kind.Forget?) && cur[k].prev == (if k == prev then [] else [k + 1])
  }

  /** The first node of a chain has bag `start`; while the chain is empty,
      the bag in hand is `start`. */
  predicate Starts(nodes: seq<Node>, cur: seq<Node>, working: seq<nat>, start: set<nat>)
    requires |nodes| <= |cur|
  {
    if |cur| == |nodes| then Elements(working) == start else Elements(cur[|nodes|].bag.vertices) == start
  }

  /** The state of the chain loops: a partly built tree whose new nodes
      form a chain from `last` to `prev`, and the bag in hand, a proper bag
      fitting under `prev`. */
  predicate ChainState(nodes: seq<Node>, leaves: seq<nat>, size: nat, last: nat, start: set<nat>,
                       cur: seq<Node>, prev: nat, working: seq<nat>) {
    && Building(cur, leaves, size) && Chain(nodes, cur, last, prev) && |nodes| <= |cur|
    && prev < |cur| && Fits(cur[prev], working) && Starts(nodes, cur, working, start)
    && NoDup(working) && Below(working, size)
  }

  /** One more chain node, hung under the end of the chain, extends it. */
  lemma ChainStep(nodes: seq<Node>, cur: seq<Node>, last: nat, prev: nat, n: Node)
    requires Chain(nodes, cur, last, prev) && |nodes| <= |cur|
    requires n.next == prev < |cur| && n.prev == [] && (n.kind.Introduce? || n.kind.Forget?)
    ensures Chain(nodes, Attach(cur, n), last, |cur|)
  {
    var r := Attach(cur, n);
    AttachAdds(cur, n);
    if |cur| == |nodes| {
      assert ChainLink(r, |cur|, |cur|);
    } else {
      assert Kept(cur, r, last);
      forall k | 0 <= k < |nodes| && k != last ensures Kept(nodes, r, k) {
        assert Kept(nodes, cur, k) && Kept(cur, r, k);
      }
      if |nodes| < prev {
        assert Kept(cur, r, |nodes|);
      }
      forall k | |nodes| <= k < |r| ensures ChainLink(r, |cur|, k) {
        if k < prev {
          assert ChainLink(cur, prev, k) && Kept(cur, r, k);
        } else if k == prev {
          assert ChainLink(cur, prev, k);
        }
      }
    }
  }

  /** A subtree hung under the end of a chain completes it: the chain and
      the subtree together hang under `last`, and every node has all its
      children. */
  lemma ChainThen(nodes: seq<Node>, cur: seq<Node>, fin: seq<Node>, last: nat, prev: nat)
    requires Chain(nodes, cur, last, prev) && |nodes| <= |cur|
    requires Adds(cur, fin, prev)
    requires forall k :: |cur| <= k < |fin| ==> Full(fin, k)
    ensures Adds(nodes, fin, last)
    ensures forall k :: |nodes| <= k < |fin| ==> Full(fin, k)
    ensures fin[|nodes|].bag == if |cur| == |nodes| then fin[|cur|].bag else cur[|nodes|].bag
  {
    if |cur| > |nodes| {
      assert Kept(cur, fin, last);
      forall k | 0 <= k < |nodes| && k != last ensures Kept(nodes, fin, k) {
        assert Kept(nodes, cur, k) && Kept(cur, fin, k);
      }
      if |nodes| < prev {
        assert Kept(cur, fin, |nodes|);
      }
      forall k | |nodes| <= k < |fin| ensures Full(fin, k) {
        if k < prev {
          assert ChainLink(cur, prev, k) && Kept(cur, fin, k);
        } else if k == prev {
          assert ChainLink(cur, prev, k);
        }
      }
    }
  }

  /** One loop step: a chain node with the bag in hand, under whose kind
      the next bag fits, keeps the loop state. */
  lemma ChainPush(nodes: seq<Node>, leaves: seq<nat>, size: nat, last: nat, start: set<nat>, cur: seq<Node>, prev: nat,
                  working: seq<nat>, n: Node, working': seq<nat>)
    requires ChainState(nodes, leaves, size, last, start, cur, prev, working)
    requires n == NewNode(New(working), n.kind, prev) && (n.kind.Introduce? || n.kind.Forget?)
    requires Fits(n, working') && NoDup(working') && Below(working', size)
    ensures ChainState(nodes, leaves, size, last, start, Attach(cur, n), |cur|, working')
  {
    AttachBuilding(cur, leaves, size, n, leaves);
    ChainStep(nodes, cur, last, prev, n);
    AttachAdds(cur, n);
  }

  /** Before the chain loops: an empty chain, with the bag in hand. */
  lemma ChainBegin(nodes: seq<Node>, leaves: seq<nat>, size: nat, last: nat, vs: seq<nat>)
    requires Building(nodes, leaves, size) && last < |nodes| && Fits(nodes[last], vs)
    requires NoDup(vs) && Below(vs, size)
    ensures ChainState(nodes, leaves, size, last, Elements(vs), nodes, last, vs)
  {
  }

  /** Between the loops: what is left of the bag shares no vertex with the
      vertices to forget. */
  lemma ChainMiddle(vs: seq<nat>, target: seq<nat>, working: seq<nat>)
    requires Elements(working) == Elements(vs) - Elements(Minus(vs, target))
    ensures forall x :: x in Minus(target, vs) ==> x !in working
  {
    forall x | x in Minus(target, vs) ensures x !in working {
      assert x !in vs;
      assert x !in Elements(vs);
      assert x !in Elements(working);
    }
  }

  /** After the chain loops the bag in hand has the neighbour's vertices, so
      the neighbour's subtree fits under the end of the chain. */
  lemma ChainReady(nodes: seq<Node>, leaves: seq<nat>, size: nat, last: nat, cur: seq<Node>, prev: nat, working: seq<nat>,
                   bag: seq<nat>, target: seq<nat>)
    requires ChainState(nodes, leaves, size, last, Elements(bag), cur, prev, working)
    requires Elements(working) == (Elements(bag) - Elements(Minus(bag, target))) + Elements(Minus(target, bag))
    ensures Elements(working) == Elements(target)
    ensures Building(cur, leaves, size) && prev < |cur| && Fits(cur[prev], target)
  {
  }

  /** The neighbour's subtree created under the end of the chain completes
      the subtree of the bag. */
  lemma ChainCreated(nodes: seq<Node>, leaves: seq<nat>, size: nat, last: nat, start: set<nat>, cur: seq<Node>, prev: nat,
                     working: seq<nat>, vs: set<nat>, fin: seq<Node>, leavesF: seq<nat>)
    requires ChainState(nodes, leaves, size, last, start, cur, prev, working) && Elements(working) == vs
    requires Created(cur, prev, vs, size, fin, leavesF)
    ensures Created(nodes, last, start, size, fin, leavesF)
  {
    ChainThen(nodes, cur, fin, last, prev);
  }

  /** One step of the Introduce loop: the vertex is still in hand, and
      removing it leaves the bag less the vertices introduced so far. */
  lemma IntroduceElements(w0: seq<nat>, w: seq<nat>, t: seq<nat>, i: nat)
    requires i < |t| && NoDup(t) && Elements(t) <= Elements(w0)
    requires Elements(w) == Elements(w0) - Elements(t[..i])
    ensures t[i] in w
    ensures Elements(Minus(w, [t[i]])) == Elements(w) - {t[i]}
    ensures Elements(Minus(w, [t[i]])) == Elements(w0) - Elements(t[..i + 1])
  {
    assert t[..i + 1] == t[..i] + [t[i]];
    assert t[i] in Elements(t);
    assert t[i] !in t[..i];
    assert t[i] !in Elements(t[..i]);
    assert t[i] in Elements(w);
  }

  /** One step of the Forget loop: the vertex is not yet in hand, and adding
      it gives the bag plus the vertices forgotten so far. */
  lemma ForgetElements(w0: seq<nat>, w: seq<nat>, t: seq<nat>, i: nat, size: nat)
    requires i < |t| && NoDup(t) && NoDup(w) && forall x :: x in t ==> x !in w0
    requires Below(t, size) && Below(w, size)
    requires Elements(w) == Elements(w0) + Elements(t[..i])
    ensures t[i] !in w && NoDup(w + [t[i]]) && Below(w + [t[i]], size)
    ensures Elements(w + [t[i]]) == Elements(w) + {t[i]}
    ensures Elements(w + [t[i]]) == Elements(w0) + Elements(t[..i + 1])
  {
    assert t[..i + 1] == t[..i] + [t[i]];
    assert t[i] !in t[..i];
    assert t[i] !in Elements(t[..i]) && t[i] !in Elements(w0);
    assert t[i] !in Elements(w);
    var r := w + [t[i]];
    forall a, b | 0 <= a < b < |r| ensures r[a] != r[b] {
      if b == |w| {
        assert r[a] == w[a];
      }
    }
    forall x | x in r ensures x < size {
      assert x in w || x == t[i];
    }
  }

  lemma ElementsWhole(s: seq<nat>)
    ensures Elements(s[..|s|]) == Elements(s)
  {
    assert s[..|s|] == s;
  }

  /** The loop over `to_introduce`: for each vertex, an Introduce node with
      the bag in hand, which then loses that vertex. */
  method IntroduceChain(ghost nodes: seq<Node>, ghost leaves: seq<nat>, ghost size: nat, ghost last: nat, ghost start: set<nat>,
                        cur: seq<Node>, prev: nat, working: seq<nat>, toIntroduce: seq<nat>)
    returns (cur': seq<Node>, prev': nat, working': seq<nat>)
    requires ChainState(nodes, leaves, size, last, start, cur, prev, working)
    requires NoDup(toIntroduce) && Elements(toIntroduce) <= Elements(working)
    ensures ChainState(nodes, leaves, size, last, start, cur', prev', working')
    ensures Elements(working') == Elements(working) - Elements(toIntroduce)
  {
    cur', prev', working' := cur, prev, working;
    for i := 0 to |toIntroduce|
      invariant ChainState(nodes, leaves, size, last, start, cur', prev', working')
      invariant Elements(working') == Elements(working) - Elements(toIntroduce[..i])
    {
      var vertex := toIntroduce[i];
      var n := NewNode(New(working'), Introduce(vertex), prev');
      var next := Minus(working', [vertex]);
      IntroduceElements(working, working', toIntroduce, i);
      ChainPush(nodes, leaves, size, last, start, cur', prev', working', n, next);
      prev' := |cur'|;
      cur' := Attach(cur', n);
      working' := next;
    }
    ElementsWhole(toIntroduce);
  }

  /** The loop over `to_forget`: for each vertex, a Forget node with the bag
      in hand, which then gains that vertex. */
  method ForgetChain(ghost nodes: seq<Node>, ghost leaves: seq<nat>, ghost size: nat, ghost last: nat, ghost start: set<nat>,
                     cur: seq<Node>, prev: nat, working: seq<nat>, toForget: seq<nat>)
    returns (cur': seq<Node>, prev': nat, working': seq<nat>)
    requires ChainState(nodes, leaves, size, last, start, cur, prev, working)
    requires NoDup(toForget) && Below(toForget, size) && forall x :: x in toForget ==> x !in working
    ensures ChainState(nodes, leaves, size, last, start, cur', prev', working')
    ensures Elements(working') == Elements(working) + Elements(toForget)
  {
    cur', prev', working' := cur, prev, working;
    for i := 0 to |toForget|
      invariant ChainState(nodes, leaves, size, last, start, cur', prev', working')
      invariant Elements(working') == Elements(working) + Elements(toForget[..i])
    {
      var vertex := toForget[i];
      var n := NewNode(New(working'), Forget(vertex), prev');
      var next := working' + [vertex];
      ForgetElements(working, working', toForget, i, size);
      ChainPush(nodes, leaves, size, last, start, cur', prev', working', n, next);
      prev' := |cur'|;
      cur' := Attach(cur', n);
      working' := next;
    }
    ElementsWhole(toForget);
  }

  // ---------------------------------------------------------------------------
  // from_root and new

  /** The dummy root on its own is a partly built tree. */
  lemma RootBuilding(root: Node, size: nat)
    requires root == NewNode(NewEmpty(), Root, UsizeMax)
    ensures Building([root], [], size)
  {
    assert ChildrenOf([root], 0) && ChildrenFit([root], 0);
    assert LeafListed([], [root], 0) && NodeOK([root], 0, size);
  }

  /** A subtree created under the lone dummy root completes a tree with at
      least one node besides the root. */
  lemma RootTree(root: Node, vs: set<nat>, size: nat, nodes: seq<Node>, leaves: seq<nat>)
    requires root == NewNode(NewEmpty(), Root, UsizeMax)
    requires Created([root], 0, vs, size, nodes, leaves)
    ensures Tree(nodes, leaves, size) && |nodes| >= 2
  {
    forall k | 0 <= k < |nodes| ensures Full(nodes, k) {
      if k == 0 {
        assert nodes[0].prev == [1];
      }
    }
  }

  lemma LeafListing(leaves: seq<nat>, nodes: seq<Node>)
    requires LeavesOf(leaves, nodes)
    ensures forall k :: 0 <= k < |nodes| ==> (nodes[k].kind.Leaf? <==> k in leaves)
  {
    forall k | 0 <= k < |nodes| ensures nodes[k].kind.Leaf? <==> k in leaves {
      assert LeafListed(leaves, nodes, k);
    }
  }

  /** `td` is a tree whose node 1, the one child of the dummy root, holds
      the vertices of raw bag `root`. */
  predicate Rooted(input: InputTD, size: nat, td: TreeDecomposition, root: nat)
    reads td
  {
    && root < Len(input)
    && Tree(td.nodes, td.leaves, size) && |td.nodes| >= 2
    && Elements(td.nodes[1].bag.vertices) == Elements(input.bags[root].vertices)
  }

  /** The first untreated bag. */
  function FirstUntreated(s: seq<bool>): (r: nat)
    requires exists k :: 0 <= k < |s| && !s[k]
    ensures r < |s| && !s[r]
    ensures forall k :: 0 <= k < r ==> s[k]
  {
    if !s[0] then 0
    else
      assert exists k :: 0 <= k < |s[1..]| && !s[1..][k] by {
        var k :| 0 <= k < |s| && !s[k];
        assert !s[1..][k - 1];
      }
      1 + FirstUntreated(s[1..])
  }

  /** Every tree is rooted at its raw bag. */
  predicate Forest(input: InputTD, size: nat, tds: seq<TreeDecomposition>, roots: seq<nat>)
    reads tds
  {
    |tds| == |roots| && forall m :: 0 <= m < |tds| ==> Rooted(input, size, tds[m], roots[m])
  }

  lemma ForestPush(input: InputTD, size: nat, tds: seq<TreeDecomposition>, roots: seq<nat>, td: TreeDecomposition, root: nat)
    requires Forest(input, size, tds, roots) && Rooted(input, size, td, root)
    ensures Forest(input, size, tds + [td], roots + [root])
  {
    var tds', roots' := tds + [td], roots + [root];
    forall m | 0 <= m < |tds'| ensures Rooted(input, size, tds'[m], roots'[m]) {
      if m < |tds| {
        assert tds'[m] == tds[m] && roots'[m] == roots[m];
      }
    }
  }

  /** Every root was untreated on entry to the loop. */
  predicate FromStart(start: seq<bool>, roots: seq<nat>) {
    forall m :: 0 <= m < |roots| ==> roots[m] < |start| && !start[roots[m]]
  }

  /** Every bag up to the last root is treated. */
  predicate TreatedUpTo(s: seq<bool>, roots: seq<nat>) {
    |roots| > 0 ==> roots[|roots| - 1] < |s| && forall k :: 0 <= k <= roots[|roots| - 1] ==> s[k]
  }

  /** The state of the loop of `new`, with flags `start` on entry and `cur`
      now: increasing roots, each untreated on entry, every bag up to the
      last treated, and the first root the first bag untreated on entry. */
  predicate GrowState(start: seq<bool>, cur: seq<bool>, roots: seq<nat>) {
    && Increasing(roots) && MoreTreated(start, cur)
    && FromStart(start, roots) && TreatedUpTo(cur, roots)
    && (|roots| == 0 ==> cur == start)
    && (|roots| > 0 ==> roots[0] < |start| && !start[roots[0]] && roots[0] == FirstUntreated(start))
  }

  /** One round of the loop of `new`: the first untreated bag roots a tree,
      after which it and every bag before it are treated; it comes after
      every earlier root and fewer bags are left untreated. */
  lemma GrowStep(start: seq<bool>, before: seq<bool>, after: seq<bool>, roots: seq<nat>, r: nat)
    requires GrowState(start, before, roots) && MoreTreated(before, after)
    requires exists k :: 0 <= k < |before| && !before[k]
    requires r == FirstUntreated(before) && after[r]
    ensures GrowState(start, after, roots + [r])
    ensures CountFalse(after) < CountFalse(before)
  {
    CountFalseGrow(before, after);
    var roots' := roots + [r];
    forall i, j | 0 <= i < j < |roots'| ensures roots'[i] < roots'[j] {
      if j == |roots| {
        assert roots'[i] == roots[i] <= roots[|roots| - 1];
      }
    }
    forall m | 0 <= m < |roots'| ensures roots'[m] < |start| && !start[roots'[m]] {
      if m < |roots| {
        assert roots'[m] == roots[m];
      }
    }
    forall k | 0 <= k <= r ensures after[k] {
      if k < r {
        assert before[k];
      }
    }
  }

  /** The loop of `new`: while some bag is untreated, a tree rooted at the
      first untreated one. The roots come in increasing order, each was
      untreated on entry, and every bag is treated on exit; trees are made
      exactly when some bag was untreated on entry, the first rooted at the
      first such bag. */
  method Grow(input: InputTD, ghost size: nat, treated: array<bool>)
    returns (tds: seq<TreeDecomposition>, ghost roots: seq<nat>)
    requires InputOK(input, size) && treated.Length == Len(input)
    modifies treated
    ensures Forest(input, size, tds, roots) && Increasing(roots)
    ensures fresh(tds)
    ensures FromStart(old(treated[..]), roots)
    ensures forall k :: 0 <= k < treated.Length ==> treated[k]
    ensures |roots| > 0 <==> exists k :: 0 <= k < treated.Length && !old(treated[..])[k]
    ensures |roots| > 0 ==> roots[0] == FirstUntreated(old(treated[..]))
  {
    ghost var start := treated[..];
    tds, roots := [], [];
    while exists k :: 0 <= k < treated.Length && !treated[k]
      invariant Forest(input, size, tds, roots) && fresh(tds)
      invariant GrowState(start, treated[..], roots)
      decreases CountFalse(treated[..])
    {
      tds, roots := GrowRound(input, size, treated, start, tds, roots);
    }
  }

  /** One round of the loop of `new`: a tree rooted at the first untreated
      bag joins the forest. */
  method GrowRound(input: InputTD, ghost size: nat, treated: array<bool>, ghost start: seq<bool>,
                   tds: seq<TreeDecomposition>, ghost roots: seq<nat>)
    returns (tds': seq<TreeDecomposition>, ghost roots': seq<nat>)
    requires InputOK(input, size) && treated.Length == Len(input)
    requires Forest(input, size, tds, roots) && GrowState(start, treated[..], roots)
    requires exists k :: 0 <= k < treated.Length && !treated[k]
    modifies treated
    ensures Forest(input, size, tds', roots') && GrowState(start, treated[..], roots')
    ensures |tds'| == |tds| + 1 && tds' == tds + [tds'[|tds|]] && fresh(tds'[|tds|])
    ensures CountFalse(treated[..]) < CountFalse(old(treated[..]))
  {
    ghost var before := treated[..];
    assert exists k :: 0 <= k < |before| && !before[k];
    var rootIdx := FirstUntreated(treated[..]);
    var td := TreeDecomposition.FromRoot(input, size, treated, rootIdx);
    GrowStep(start, before, treated[..], roots, rootIdx);
    ForestPush(input, size, tds, roots, td, rootIdx);
    tds', roots' := tds + [td], roots + [rootIdx];
  }

  /** A nice tree decomposition: the nodes, linked by index, and the Leaf
      nodes among them. */
  class TreeDecomposition {
    var nodes: seq<Node>
    var leaves: seq<nat>

    constructor(nodes: seq<Node>, leaves: seq<nat>)
      ensures this.nodes == nodes && this.leaves == leaves
    {
      this.nodes := nodes;
      this.leaves := leaves;
    }

    /** `leaves`: the Leaf nodes, in increasing order. */
    function Leaves(): (r: seq<nat>)
      reads this
      ensures LeavesOf(leaves, nodes) ==>
        Increasing(r) && forall k :: 0 <= k < |nodes| ==> (nodes[k].kind.Leaf? <==> k in r)
    {
      if LeavesOf(leaves, nodes) then LeafListing(leaves, nodes); leaves else leaves
    }

    /** `from_root`: the dummy root, and under it the subtree of raw bag
        `rootIdx` over all its neighbours. */
    static method FromRoot(input: InputTD, ghost size: nat, treated: array<bool>, rootIdx: nat)
      returns (td: TreeDecomposition)
      requires InputOK(input, size) && treated.Length == Len(input) && rootIdx < Len(input)
      modifies treated
      ensures fresh(td) && Rooted(input, size, td, rootIdx)
      ensures treated[rootIdx] && MoreTreated(old(treated[..]), treated[..])
    {
      var root := NewNode(NewEmpty(), Root, UsizeMax);
      RootBuilding(root, size);
      var nodes, leaves := CreateNodes(input, size, treated, [root], [], rootIdx, 0, Edges(input)[rootIdx]);
      RootTree(root, Elements(input.bags[rootIdx].vertices), size, nodes, leaves);
      td := new TreeDecomposition(nodes, leaves);
    }

    /** `new`: marks the bags without neighbours treated, then roots a tree
        at each first untreated bag in turn. So no tree is rooted at a bag
        without neighbours, and there is a tree exactly when some bag has a
        neighbour. */
    static method New(input: InputTD, ghost size: nat) returns (tds: seq<TreeDecomposition>, ghost roots: seq<nat>)
      requires InputOK(input, size)
      ensures Forest(input, size, tds, roots) && Increasing(roots)
      ensures fresh(tds)
      ensures forall m :: 0 <= m < |roots| ==> roots[m] < Len(input) && |Edges(input)[roots[m]]| > 0
      ensures |tds| > 0 <==> exists b :: 0 <= b < Len(input) && |Edges(input)[b]| > 0
    {
      var treated := new bool[Len(input)](_ => false);
      var edges := Edges(input);
      for i := 0 to |edges|
        invariant forall k :: 0 <= k < treated.Length ==> (treated[k] <==> k < i && |edges[k]| == 0)
      {
        if |edges[i]| == 0 {
          treated[i] := true;
        }
      }
      ghost var start := treated[..];
      tds, roots := Grow(input, size, treated);
      assert forall k :: 0 <= k < |start| ==> (!start[k] <==> |Edges(input)[k]| > 0);
    }

    /** `new` without marking the bags without neighbours: every bag can
        root a tree, so a decomposition with any bag gives a tree, the first
        rooted at bag 0. */
    static method NewCovering(input: InputTD, ghost size: nat) returns (tds: seq<TreeDecomposition>, ghost roots: seq<nat>)
      requires InputOK(input, size)
      ensures Forest(input, size, tds, roots) && Increasing(roots)
      ensures fresh(tds)
      ensures Len(input) > 0 ==> |tds| > 0 && roots[0] == 0
    {
      var treated := new bool[Len(input)](_ => false);
      ghost var start := treated[..];
      tds, roots := Grow(input, size, treated);
      if Len(input) > 0 {
        assert !start[0];
      }
    }
  }

  // ---------------------------------------------------------------------------
  // A decomposition of one bag

  /** One bag holding vertex 0, with no neighbour. */
  function OneBag(): (r: InputTD)
    ensures InputOK(r, 1) && Len(r) == 1
  {
    var r := InputTD([Bag([0])], [[]]);
    assert RawBagOK(r, 0, 1);
    r
  }

  /** `new` as written makes no tree of a one-bag decomposition, so its
      vertex is never counted. */
  method OneBagAsWritten() returns (tds: seq<TreeDecomposition>)
    ensures tds == []
  {
    ghost var roots;
    tds, roots := TreeDecomposition.New(OneBag(), 1);
  }

  /** Without the marking, the one bag roots a tree whose node 1 holds its
      vertex. */
  method OneBagCovered() returns (tds: seq<TreeDecomposition>)
    ensures |tds| > 0 && |tds[0].nodes| >= 2 && Elements(tds[0].nodes[1].bag.vertices) == {0}
  {
    ghost var roots;
    tds, roots := TreeDecomposition.NewCovering(OneBag(), 1);
    assert Rooted(OneBag(), 1, tds[0], roots[0]);
    assert Elements([0]) == {0};
  }
}
