# TD-IS in Dafny

TD-IS computes a maximum-weight independent set of a vertex-weighted graph by
dynamic programming over a tree decomposition. It reads the graph and the
decomposition from comma-separated line files. It turns every connected part
of the decomposition that has at least one link into a *nice* tree
decomposition: a dummy Root, then Leaf, Introduce, Forget and Join nodes. A
bag without neighbours gets no tree (see "## Findings"). It then fills,
from every leaf upward, one table per node. A table maps each subset of the node's bag to a weight.
The answer is the largest entry of node 1, the one child of the dummy root.

This project models that core in Dafny and proves properties of the model.
There is one module per source file:

- `Text`, `Lines`, `Numbering`: the line format shared by both parsers.
  This covers Rust's `split`, `trim` and `parse::<usize>`, the
  classification of a line, the dense numbering of names and the adjacency
  lists.
- `Graphs` (`graph.rs`): the graph, its parser, the weight of a set, and
  the neighbour and independence tests.
- `Bags` (`bag.rs`): bags, `set_vertices`, and the power set of a bag.
- `InputDecomposition` (`input_tree_decomposition.rs`): the raw
  decomposition and its parser.
- `Nodes` (`node.rs`): nodes, `can_traverse`, `update_entries` and its
  recurrence, and the backtracking `get_solution`.
- `TreeDecompositions` (`tree_decomposition.rs`): the builder (`new`,
  `from_root`, `create_nodes`) and the class holding a built tree.
- `IsSolver` (`is_solver.rs`): `solve`, `compute_is` and `traverse_up`,
  written as a class over the tree, with the invariants that make the
  driver correct.

Code that changes state step by step is modelled as imperative Dafny:

- the parser loops, the builder, `update_entries`, `compute_is`,
  `traverse_up` and `get_solution` are methods with loops or recursion;
- the `treated`, `finished` and `rejected` bit vectors are `array<bool>`;
- the nodes of a tree are a `seq<Node>` field of the class
  `TreeDecomposition`, updated in place;
- each node's table is a `map<seq<nat>, nat>`.

Every method is proved against a specification function: `Recurrence` for
`update_entries`, `Backtrack` for `get_solution`, `Models` for the parsers,
and `Tree`/`Rooted`/`Forest` for the builder. A Rust panic (an `unwrap` on a
missing key, an index out of range) becomes a precondition.

What is proved about the solver:

- every table stays *sound*: each entry is 0, or its subset is independent
  and the entry is at least the subset's weight;
- once `compute_is` is done, every node but the root has a table;
- node 1's table is exactly what the recurrence gives it, keyed by every
  subset of its bag;
- the result is the largest entry of that table, so it is 0 or at least the
  weight of an independent set;
- the solved tree meets what `get_solution` needs: each lookup of its walk
  down finds its subset (`SolvedTraceable`);
- `traverse_up` fills every node from its start up to where it stops, and
  changes no other node.

Where the code departs from the textbook construction of a nice tree
decomposition and its dynamic programme, the model follows the code:

- Node 1 holds the vertices of the raw root bag, not an empty bag. Nothing
  forgets the root's vertices, so the answer is the largest entry over all
  subsets of that bag, as `compute_is` computes it
  (`is_solver.rs:33-39`).
- The value 0 stands both for "weight 0" and for "not an independent set".
  The Introduce rule reads a child's 0 as "not independent", so an
  independent set whose part below is empty is lost.
  `Nodes.ZeroConflated` shows a concrete case:
  - vertices A (weight 5) and B (weight 1), linked;
  - an Introduce(A) node over bag {A, B}, above a leaf with bag {B};
  - the Introduce node gives {A} the entry 0, although {A} is independent
    and weighs 5.
  The model keeps this behaviour, as the code has it. Because of it, no
  optimality claim is stated.
- `parse::<usize>` accepts a leading `+`, as Rust's does.

## Model

| member | source | states |
|---|---|---|
| Seqs.Sort | TD-IS/src/datastructures/node.rs:75 | `Vec::sort` on a vertex list: the result is ascending and a permutation of the input |
| Seqs.SortedUnique | TD-IS/src/datastructures/node.rs:92-93 | two ascending lists with the same multiset are equal, so the key after a push and sort is unique |
| Seqs.SortOfSorted | TD-IS/src/datastructures/node.rs:75 | sorting an ascending list leaves it unchanged |
| Seqs.RemoveFirst | TD-IS/src/datastructures/node.rs:77 | `remove(position(x))` takes exactly one copy of `x` off the multiset when `x` is present; otherwise the list is unchanged |
| Seqs.RemoveFirstSorted | TD-IS/src/datastructures/node.rs:86 | removing an element keeps a list ascending |
| Seqs.RemoveThenSort | TD-IS/src/datastructures/node.rs:86-93 | removing `v` from a sorted subset, pushing it back and sorting restores the subset: the key Introduce inserts under is the subset itself |
| Seqs.SortThenRemove | TD-IS/src/datastructures/node.rs:74-77 | pushing `v`, sorting, and removing `v` restores the subset: the key Forget inserts under is the subset itself |
| Seqs.Minus | TD-IS/src/datastructures/tree_decomposition.rs:87-88 | the filter `!other.contains(v)` keeps exactly the elements not in the other list, and keeps the list duplicate-free |
| Seqs.MinusAppend | TD-IS/src/datastructures/tree_decomposition.rs:95 | removing the introduced vertices one `retain` at a time is removing them all at once |
| Seqs.Subsequences | TD-IS/src/datastructures/node.rs:61 | there are 2^n subsequences of an n-element list |
| Seqs.SubsequencesOfSorted | TD-IS/src/datastructures/node.rs:61 | a list is a subsequence of an ascending list exactly when it is ascending and a sub-multiset of it (both directions) |
| Seqs.WholeIsSubsequence | TD-IS/src/datastructures/node.rs:61 | the whole list is one of its subsequences |
| Seqs.EmptyIsSubsequence | TD-IS/src/datastructures/node.rs:61 | the empty list is one of its subsequences |
| Seqs.SameElementsSameMultiset | TD-IS/src/datastructures/tree_decomposition.rs:91-107 | duplicate-free lists with the same elements are permutations of each other |
| Seqs.MinusOneMultiset | TD-IS/src/datastructures/tree_decomposition.rs:95 | `retain(v != x)` on a duplicate-free list takes off exactly one copy of a present `x`, and nothing otherwise |
| Text.Split | TD-IS/src/datastructures/graph.rs:21 | `split` gives at least one piece, and no piece holds the separator |
| Text.JoinSplit | TD-IS/src/datastructures/graph.rs:21 | joining the pieces of `split` with the separator gives the line back |
| Text.SplitJoin | TD-IS/src/datastructures/bag.rs:22 | splitting pieces joined by a separator that none of them holds gives the pieces back |
| Text.SplitFree | TD-IS/src/datastructures/graph.rs:21 | a line without the separator splits into itself alone |
| Text.SplitPrefix | TD-IS/src/datastructures/graph.rs:21 | the first piece ends at the first separator |
| Text.TrimStart | TD-IS/src/datastructures/graph.rs:24 | drops exactly the leading whitespace: the result is a suffix that starts with a non-space |
| Text.TrimEnd | TD-IS/src/datastructures/graph.rs:24 | drops exactly the trailing whitespace: the result is a prefix that ends with a non-space |
| Text.Trim | TD-IS/src/datastructures/graph.rs:24-25 | `trim()` has no whitespace at either end, and is empty exactly when the field is all whitespace |
| Text.TrimEmpty | TD-IS/src/datastructures/graph.rs:25 | the trimmed field is empty exactly when the field is all whitespace |
| Text.TrimIdempotent | TD-IS/src/datastructures/graph.rs:24 | trimming twice is trimming once |
| Text.ParseUsize | TD-IS/src/datastructures/graph.rs:58 | `parse::<usize>()` gives a value only for a non-empty string, other than a lone `+`, whose value fits in 64 bits |
| Text.DecimalValue | TD-IS/src/datastructures/graph.rs:58 | the digits of `n` have the value `n` |
| Text.ParseDecimal | TD-IS/src/datastructures/graph.rs:58-59 | every `usize` written in decimal, with or without `+`, parses back to itself (round trip) |
| Lines.ParseLine | TD-IS/src/datastructures/graph.rs:21-56 | a line is blank exactly when its first field trims to nothing; names are trimmed and non-empty; a label is a non-blank third field |
| Lines.ParseMention | TD-IS/src/datastructures/graph.rs:34-36 | a line that is only a name mentions that name |
| Lines.ParseLink | TD-IS/src/datastructures/graph.rs:39-53 | the line `a,b` is an edge between `a` and `b` |
| Lines.ParseLabel | TD-IS/src/datastructures/graph.rs:56-59 | the line `a,,w` labels `a` with `w` |
| Lines.TrimOfName | TD-IS/src/datastructures/graph.rs:24 | a name is unchanged by `trim` |
| Lines.Parse | TD-IS/src/datastructures/graph.rs:20 | one classification per line of the file |
| Lines.ParseStep | TD-IS/src/datastructures/graph.rs:20 | reading one more line appends its classification |
| Lines.ParseAt | TD-IS/src/datastructures/graph.rs:20 | the classification of line `k` is that of line `k` alone |
| Lines.Distinct | TD-IS/src/datastructures/graph.rs:27-32 | the first occurrences of the names: duplicate-free, with the same names as the input |
| Lines.Order | TD-IS/src/datastructures/graph.rs:27-47 | the order in which names get their indices: every mentioned name once, nothing else |
| Lines.AddName | TD-IS/src/datastructures/graph.rs:27-32 | a name is appended when new and the order is kept when not; the old order is a prefix |
| Lines.DistinctAppend | TD-IS/src/datastructures/graph.rs:27-47 | the first occurrences of `xs + ys` are those of `xs`, then the new names of `ys` in turn |
| Lines.OrderStep | TD-IS/src/datastructures/graph.rs:20-64 | one more line extends the order by the new names it mentions |
| Lines.OrderOne | TD-IS/src/datastructures/graph.rs:27-32 | a line that names one name adds that name if it is new |
| Lines.OrderLink | TD-IS/src/datastructures/graph.rs:27-47 | an edge line adds its first name, then its second |
| Lines.OrderBlank | TD-IS/src/datastructures/graph.rs:25 | a blank line adds no name |
| Lines.NeighboursStep | TD-IS/src/datastructures/graph.rs:50-51 | one more line adds to the neighbours of `n` only what that line links to `n` |
| Lines.NeighboursSymmetric | TD-IS/src/datastructures/graph.rs:50-51 | `b` is linked to `a` exactly when `a` is linked to `b` |
| Lines.NeighboursMentioned | TD-IS/src/datastructures/graph.rs:50-51 | only mentioned names are linked |
| Lines.UnmentionedNeighbours | TD-IS/src/datastructures/graph.rs:31 | a name the lines never mention has no neighbours |
| Numbering.Positions | TD-IS/src/datastructures/graph.rs:48-51 | the indices of a list of names, position by position |
| Numbering.IndexedIntern | TD-IS/src/datastructures/graph.rs:27-29 | a new name gets the next index, `len()`, and the numbering stays exact |
| Numbering.AdjacencyIntern | TD-IS/src/datastructures/graph.rs:31 | a new name starts with an empty list, and the old lists keep their meaning |
| Numbering.PositionsAgree | TD-IS/src/datastructures/graph.rs:48 | positions depend only on the indices of the names listed |
| Numbering.PositionsAppend | TD-IS/src/datastructures/graph.rs:50-51 | the positions of `ns + ms` are those of `ns`, then those of `ms` |
| Numbering.AdjacencySkip | TD-IS/src/datastructures/graph.rs:53-63 | a line that links nothing leaves every list unchanged |
| Numbering.AddEdge | TD-IS/src/datastructures/graph.rs:50-51 | the two pushes of an edge keep the number of lists |
| Numbering.AdjacencyLink | TD-IS/src/datastructures/graph.rs:48-51 | an edge line `a,b` appends `b`'s index to `a`'s list and `a`'s index to `b`'s list, keeping every list equal to its neighbours' indices |
| Numbering.AddEdgeAt | TD-IS/src/datastructures/graph.rs:50-51 | list `k` after the two pushes is list `k` plus the entries pushed onto it |
| Numbering.EdgeAt | TD-IS/src/datastructures/graph.rs:50-51 | the positions of the old neighbours plus a link are the old positions plus the entries the pushes add |
| Numbering.AdjacencyMeaning | TD-IS/src/datastructures/graph.rs:94-96 | index `y` is on list `x` exactly when the lines link name `y` to name `x` |
| Numbering.AdjacencyBounded | TD-IS/src/datastructures/graph.rs:50-51 | every list entry is an index |
| Numbering.AdjacencySymmetric | TD-IS/src/datastructures/graph.rs:50-51 | `y` is on `x`'s list exactly when `x` is on `y`'s list |
| Numbering.PositionsIndex | TD-IS/src/datastructures/graph.rs:48 | a position is `y` exactly when the name listed is name `y` |
| Numbering.PositionsBounded | TD-IS/src/datastructures/graph.rs:48 | positions of numbered names are indices |
| Graphs.GetVertexIdx | TD-IS/src/datastructures/graph.rs:78-80 | there is an index exactly when the name is known |
| Graphs.Size | TD-IS/src/datastructures/graph.rs:74-76 | the number of vertices is the number of weights, and of adjacency lists in a well-formed graph |
| Graphs.Weight | TD-IS/src/datastructures/graph.rs:86-88 | the weight of a vertex, which is the weight of the set holding it alone |
| Graphs.WeightOfSet | TD-IS/src/datastructures/graph.rs:90-92 | the fold sums the weights: 0 for the empty set, and at least each member's weight |
| Graphs.WeightOfSetRemove | TD-IS/src/datastructures/graph.rs:90-92 | removing one copy of `x` takes exactly `x`'s weight off the sum |
| Graphs.WeightOfSetPermutation | TD-IS/src/datastructures/graph.rs:90-92 | the sum does not depend on the order of the vertices |
| Graphs.WeightOfSetAdd | TD-IS/src/datastructures/graph.rs:90-92 | adding a vertex anywhere adds its weight |
| Graphs.AnyIn | TD-IS/src/datastructures/graph.rs:95 | `iter().any(contains)` holds exactly when the lists share an entry |
| Graphs.IsNeighbor | TD-IS/src/datastructures/graph.rs:94-96 | true exactly when some vertex of `others` is adjacent to `v` |
| Graphs.NoneAdjacent | TD-IS/src/datastructures/graph.rs:99 | true exactly when no listed vertex has a neighbour in the set |
| Graphs.IsIndependent | TD-IS/src/datastructures/graph.rs:98-100 | `is_is` holds exactly when no two vertices of the set, nor one with itself, are adjacent |
| Graphs.IndependentSubset | TD-IS/src/datastructures/graph.rs:98-100 | independence passes to every subset |
| Graphs.IndependentAdd | TD-IS/src/datastructures/graph.rs:94-100 | in a symmetric graph without self-loops, adding a vertex with no neighbour in an independent set keeps it independent |
| Graphs.LastWeight | TD-IS/src/datastructures/graph.rs:56-63 | the weight the lines give a name (its last parsable label, or 0) fits in a `usize` |
| Graphs.WeightSet | TD-IS/src/datastructures/graph.rs:58-59 | a line sets a weight only when it labels the name with a parsable `usize` |
| Graphs.LastWeightStep | TD-IS/src/datastructures/graph.rs:58-62 | a later parsable label overwrites the weight; an unparsable one leaves it |
| Graphs.UnmentionedWeight | TD-IS/src/datastructures/graph.rs:30 | a name never mentioned keeps the weight 0 |
| Graphs.ParseGraph | TD-IS/src/datastructures/graph.rs:14-72 | `Graph::new` builds the graph the lines describe: names indexed by first appearance, edges both ways, weights from the last parsable label |
| Graphs.AddLine | TD-IS/src/datastructures/graph.rs:21-63 | one loop iteration keeps the graph equal to the description of the lines read so far |
| Graphs.AddLink | TD-IS/src/datastructures/graph.rs:39-53 | an edge line interns both names and pushes each index onto the other's list, keeping the description exact |
| Graphs.AddLabelled | TD-IS/src/datastructures/graph.rs:56-63 | a label line interns the name and sets its weight when the label parses, keeping the description exact |
| Graphs.NamedIndex | TD-IS/src/datastructures/graph.rs:59 | a numbered name has an index with a weight, so `weights[vertex_indices[name]]` does not panic |
| Graphs.InternStep | TD-IS/src/datastructures/graph.rs:27-32 | interning a name keeps the graph an exact description of the lines read, with the name added to the order of first appearance |
| Graphs.InternNumbered | TD-IS/src/datastructures/graph.rs:27-29 | interning a new name keeps both name maps exact, with the name numbered last |
| Graphs.Intern | TD-IS/src/datastructures/graph.rs:27-32 | a known name leaves the graph as it is; a new name gets the next index, weight 0 and no neighbours, and every earlier index, weight and list is kept; well-formedness, symmetry and the absence of self-loops are preserved |
| Graphs.SkipLine | TD-IS/src/datastructures/graph.rs:34-36 | a line that neither links nor sets a weight only adds its names |
| Graphs.WeightsSkip | TD-IS/src/datastructures/graph.rs:56-62 | a line that sets no weight leaves every weight as it was |
| Graphs.LinkStep | TD-IS/src/datastructures/graph.rs:48-53 | the two pushes of an edge line make the description exact again |
| Graphs.WeightStep | TD-IS/src/datastructures/graph.rs:58-59 | setting the parsed weight makes the description exact again |
| Graphs.WeightsSet | TD-IS/src/datastructures/graph.rs:59 | setting one weight changes only that name's weight |
| Graphs.ParsedGraph | TD-IS/src/datastructures/graph.rs:66-84 | the parsed graph is well formed and symmetric, `size()` counts the distinct names, and the two name maps are inverse |
| Graphs.NamesInverse | TD-IS/src/datastructures/graph.rs:78-84 | `get_vertex_idx` and `get_vertex_name` are inverse |
| Graphs.EdgeMeaning | TD-IS/src/datastructures/graph.rs:94-96 | vertex `y` is adjacent to `x` exactly when the lines link their names |
| Bags.NewEmpty | TD-IS/src/datastructures/bag.rs:9-13 | a new empty bag has no vertices |
| Bags.New | TD-IS/src/datastructures/bag.rs:15-19 | `vertices()` gives back the list the bag was made from |
| Bags.Vertices | TD-IS/src/datastructures/bag.rs:28-30 | `vertices()` gives back the list a bag is made of, so `Bag::new` of it is the same bag |
| Bags.SetVertices | TD-IS/src/datastructures/bag.rs:21-26 | one vertex per `;`-separated field, and the index of its trimmed name |
| Bags.NamesOf | TD-IS/src/datastructures/bag.rs:25 | the names of a list of vertices, position by position |
| Bags.SetVerticesOfNames | TD-IS/src/datastructures/bag.rs:21-30 | writing a bag's names joined by `;` and reading them back with `set_vertices` gives the bag's list again |
| Bags.Powerset | TD-IS/src/datastructures/node.rs:61 | a bag of n vertices has 2^n subsets, the empty one among them |
| Bags.PowersetMembers | TD-IS/src/datastructures/node.rs:61 | the subsets are exactly the ascending sub-multisets of the bag (both directions); the whole bag, sorted, is one |
| Bags.Subsets | TD-IS/src/datastructures/node.rs:61 | the key set of a full table is the set of the bag's subsets |
| InputDecomposition.ParseInput | TD-IS/src/datastructures/input_tree_decomposition.rs:13-62 | `InputTreeDecomposition::new` builds the decomposition the lines describe: bags indexed by first appearance, edges both ways, each bag from the last label of its name |
| InputDecomposition.AddLine | TD-IS/src/datastructures/input_tree_decomposition.rs:19-55 | one loop iteration keeps the decomposition equal to the description of the lines read so far |
| InputDecomposition.InternBag | TD-IS/src/datastructures/input_tree_decomposition.rs:25-30 | interning a bag name gives it an index and keeps the decomposition an exact description of the lines read, with the name added to the order of first appearance |
| InputDecomposition.AllKnownStep | TD-IS/src/datastructures/input_tree_decomposition.rs:55 | a line whose vertex names are all known keeps every label readable |
| InputDecomposition.SkipLine | TD-IS/src/datastructures/input_tree_decomposition.rs:32-34 | a line that neither links nor labels only adds its names |
| InputDecomposition.BagsSkip | TD-IS/src/datastructures/input_tree_decomposition.rs:53 | a line that labels nothing leaves every bag unchanged |
| InputDecomposition.LinkStep | TD-IS/src/datastructures/input_tree_decomposition.rs:45-50 | the two pushes of an edge line make the description exact again |
| InputDecomposition.LabelStep | TD-IS/src/datastructures/input_tree_decomposition.rs:53-55 | `set_vertices` on the named bag makes the description exact again |
| InputDecomposition.BagsSet | TD-IS/src/datastructures/input_tree_decomposition.rs:55 | a label line changes only the bag it names |
| InputDecomposition.UnlabelledBag | TD-IS/src/datastructures/input_tree_decomposition.rs:28 | a bag name that no line labels keeps an empty bag |
| InputDecomposition.LabelOverwrites | TD-IS/src/datastructures/bag.rs:21-26 | a later label replaces what earlier ones set: the bag is what its text alone gives |
| InputDecomposition.ParsedInput | TD-IS/src/datastructures/input_tree_decomposition.rs:64-74 | `len()` and `edges()` both count the distinct bag names; the adjacency is in range and symmetric |
| InputDecomposition.InputMeaning | TD-IS/src/datastructures/input_tree_decomposition.rs:64-70 | bag `y` is adjacent to bag `x` exactly when the lines link their names, and `get_bag(x)` is what the last label of `x`'s name set |
| InputDecomposition.Edges | TD-IS/src/datastructures/input_tree_decomposition.rs:64-66 | `edges()` gives the adjacency lists of the bags |
| InputDecomposition.GetBag | TD-IS/src/datastructures/input_tree_decomposition.rs:68-70 | `get_bag(idx)` gives the bag at that index, one of the decomposition's bags |
| InputDecomposition.Len | TD-IS/src/datastructures/input_tree_decomposition.rs:72-74 | `len()` counts the bags, and every index below it has a bag |
| Nodes.NewNode | TD-IS/src/datastructures/node.rs:18-26 | `Node::new` keeps bag, type and parent, with no children and an empty table |
| Nodes.AddToPrev | TD-IS/src/datastructures/node.rs:36-38 | `add_to_prev` appends one child and changes nothing else |
| Nodes.AllFilled | TD-IS/src/datastructures/node.rs:51 | `all(!is_empty())` holds exactly when every listed child has a non-empty table |
| Nodes.CanTraverse | TD-IS/src/datastructures/node.rs:48-56 | never at the Root; always at Leaf, Introduce and Forget; at a Join exactly when every child's table is non-empty |
| Nodes.Max | TD-IS/src/datastructures/node.rs:76 | `cmp::max` is the larger of its arguments |
| Nodes.Recurrence | TD-IS/src/datastructures/node.rs:58-116 | the recurrence's table is keyed by exactly the subsets of the bag; the Root's is empty |
| Nodes.GetWeight | TD-IS/src/datastructures/node.rs:44-46 | `get_weight` gives the table's entry for a subset it holds |
| Nodes.LeafEntry | TD-IS/src/datastructures/node.rs:60-68 | a leaf's entry is the subset's weight when the subset is independent, and 0 otherwise |
| Nodes.ForgetEntry | TD-IS/src/datastructures/node.rs:70-80 | a Forget entry is the larger of the child's entries for the subset without and with the forgotten vertex |
| Nodes.IntroduceEntry | TD-IS/src/datastructures/node.rs:82-99 | without the introduced vertex, the child's entry; with it, 0 exactly when the child's entry for the rest is 0 or the vertex has a neighbour there, else that entry plus the vertex's weight |
| Nodes.JoinEntry | TD-IS/src/datastructures/node.rs:101-113 | a Join entry is one side's entry when the other is 0, else the two entries less the weight of the subset they both count |
| Nodes.Entry | TD-IS/src/datastructures/node.rs:58-116 | `update_entries` picks the rule of the node's kind, and the root gets nothing |
| Nodes.UpdateEntries | TD-IS/src/datastructures/node.rs:58-117 | `update_entries` leaves the old table overwritten by the recurrence's entry for every subset of the bag |
| Nodes.EntriesStep | TD-IS/src/datastructures/node.rs:64-66 | one insertion adds the entry of the next subset |
| Nodes.EntriesAll | TD-IS/src/datastructures/node.rs:61-68 | after the whole power set the inserted entries are the recurrence |
| Nodes.ComputeEntry | TD-IS/src/datastructures/node.rs:59-114 | one iteration inserts under the subset itself the entry the node kind's rule gives it |
| Nodes.ForgetStep | TD-IS/src/datastructures/node.rs:70-80 | Forget(v): the larger of the child's entries for S and for S plus v, inserted under S |
| Nodes.IntroduceStep | TD-IS/src/datastructures/node.rs:82-98 | Introduce(v): 0 if the child's entry for S minus v is 0 or v has a neighbour there, else that entry plus v's weight; the child's entry when v is not in S; inserted under S |
| Nodes.JoinStep | TD-IS/src/datastructures/node.rs:101-113 | Join: the other side when one side is 0, else the sum less the weight of S |
| Nodes.ZeroConflated | TD-IS/src/datastructures/node.rs:87-88 | an independent set of weight 5 gets the entry 0 at an Introduce node when its part below is the empty set |
| Nodes.RecurrenceSound | TD-IS/src/datastructures/node.rs:58-116 | over a symmetric graph without self-loops, sound child tables give a sound table: every entry is 0 or at least the weight of its subset, which is then independent |
| Nodes.EntrySound | TD-IS/src/datastructures/node.rs:59-114 | each rule's entry is 0 or at least the weight of its independent subset |
| Nodes.ForgetSound | TD-IS/src/datastructures/node.rs:70-80 | the Forget rule keeps entries sound |
| Nodes.IntroduceSound | TD-IS/src/datastructures/node.rs:82-98 | the Introduce rule keeps entries sound: v is added only to an independent set it has no neighbour in |
| Nodes.JoinSound | TD-IS/src/datastructures/node.rs:101-113 | the Join rule keeps entries sound, and the sum never drops below the weight it subtracts |
| Nodes.PowersetBounded | TD-IS/src/datastructures/node.rs:123-124 | a subset of a bag in range is in range, so `rejected[*i]` does not panic |
| Nodes.PowersetAllBounded | TD-IS/src/datastructures/node.rs:123-124 | every subset of a bag in range is in range |
| Nodes.AnyRejected | TD-IS/src/datastructures/node.rs:124 | true exactly when some vertex of the set is rejected |
| Nodes.FirstCandidate | TD-IS/src/datastructures/node.rs:123-128 | the loop stops at the first subset with no rejected vertex whose entry is the objective, or finds none |
| Nodes.AddAll | TD-IS/src/datastructures/node.rs:127 | pushing the vertices not yet in the solution extends it by exactly those vertices, without repeats |
| Nodes.RejectAll | TD-IS/src/datastructures/node.rs:126 | exactly the bag's vertices outside the set get flagged; other flags are kept |
| Nodes.Backtrack | TD-IS/src/datastructures/node.rs:120-187 | the walk down from a node keeps the number of rejected flags |
| Nodes.Walk | TD-IS/src/datastructures/node.rs:121-185 | what each kind does with the chosen subset keeps the number of flags |
| Nodes.ForgetWalk | TD-IS/src/datastructures/node.rs:131-145 | the Forget arm keeps the number of flags |
| Nodes.Less | TD-IS/src/datastructures/node.rs:154 | `curr_obj - weight(v)` with the weight added back is the objective |
| Nodes.IntroduceWalk | TD-IS/src/datastructures/node.rs:146-161 | the Introduce arm keeps the number of flags |
| Nodes.JoinWalk | TD-IS/src/datastructures/node.rs:162-184 | the Join arm keeps the number of flags |
| Nodes.GrowsThen | TD-IS/src/datastructures/node.rs:138 | two walks in turn grow the solution and the rejections |
| Nodes.StepGrows | TD-IS/src/datastructures/node.rs:126-127 | pushing vertices and flagging the rest of the bag grows the solution and the rejections |
| Nodes.FlagGrows | TD-IS/src/datastructures/node.rs:137 | setting one flag grows the rejections |
| Nodes.BacktrackGrows | TD-IS/src/datastructures/node.rs:120-187 | every walk only appends to the solution, without repeats if there were none, and never clears a rejected flag |
| Nodes.LeafGrows | TD-IS/src/datastructures/node.rs:122-130 | the Leaf arm grows the solution and the rejections |
| Nodes.ForgetGrows | TD-IS/src/datastructures/node.rs:131-145 | the Forget arm grows the solution and the rejections |
| Nodes.IntroduceGrows | TD-IS/src/datastructures/node.rs:146-161 | the Introduce arm grows the solution and the rejections |
| Nodes.JoinGrows | TD-IS/src/datastructures/node.rs:162-184 | the Join arm grows the solution and the rejections |
| Nodes.GetSolution | TD-IS/src/datastructures/node.rs:120-187 | `get_solution` leaves the solution and the flags exactly as the walk `Backtrack` describes |
| Nodes.Follow | TD-IS/src/datastructures/node.rs:121-186 | the arm for the node's kind does what `Walk` describes |
| Nodes.FollowForget | TD-IS/src/datastructures/node.rs:131-145 | the Forget arm does what `ForgetWalk` describes |
| Nodes.FollowIntroduce | TD-IS/src/datastructures/node.rs:146-161 | the Introduce arm does what `IntroduceWalk` describes |
| Nodes.FollowJoin | TD-IS/src/datastructures/node.rs:162-184 | the Join arm does what `JoinWalk` describes |
| Nodes.RejectOthers | TD-IS/src/datastructures/node.rs:126 | the `for_each` flags in place exactly what `RejectAll` flags |
| Nodes.PushAll | TD-IS/src/datastructures/node.rs:127 | the `for_each` pushes exactly what `AddAll` adds |
| TreeDecompositions.Attach | TD-IS/src/datastructures/tree_decomposition.rs:77-79 | a pushed node adds one node |
| TreeDecompositions.AttachAdds | TD-IS/src/datastructures/tree_decomposition.rs:77-79 | a pushed node is its parent's new child, and no other old node changes |
| TreeDecompositions.AttachBuilding | TD-IS/src/datastructures/tree_decomposition.rs:67-79 | hanging a fitting node under its parent keeps the links, the shape, the leaf list and the bags of a partly built tree |
| TreeDecompositions.AttachBags | TD-IS/src/datastructures/tree_decomposition.rs:77 | the new node's bag is duplicate-free and in range, with an empty table |
| TreeDecompositions.AttachLinked | TD-IS/src/datastructures/tree_decomposition.rs:77-79 | parent and child links stay consistent |
| TreeDecompositions.AttachShaped | TD-IS/src/datastructures/tree_decomposition.rs:77-79 | every child still fits under its parent |
| TreeDecompositions.AttachLeaves | TD-IS/src/datastructures/tree_decomposition.rs:76-77 | `leaves` lists exactly the Leaf nodes, in increasing order |
| TreeDecompositions.JoinThen | TD-IS/src/datastructures/tree_decomposition.rs:66-73 | a Join node with two subtrees under it is one subtree, all of whose nodes have their children |
| TreeDecompositions.CountFalse | TD-IS/src/datastructures/tree_decomposition.rs:25 | the count of untreated bags is 0 exactly when `all()` holds |
| TreeDecompositions.CountFalseSet | TD-IS/src/datastructures/tree_decomposition.rs:80 | treating an untreated bag lowers the count by one |
| TreeDecompositions.MoreTreatedThen | TD-IS/src/datastructures/tree_decomposition.rs:109 | treated flags only accumulate |
| TreeDecompositions.CountFalseGrow | TD-IS/src/datastructures/tree_decomposition.rs:109 | treating bags never raises the count, and leaves it unchanged only when no flag changed |
| TreeDecompositions.Untreated | TD-IS/src/datastructures/tree_decomposition.rs:111 | the filter keeps exactly the untreated neighbours |
| TreeDecompositions.CreateNodes | TD-IS/src/datastructures/tree_decomposition.rs:62-113 | `create_nodes` hangs under `last` a subtree whose first node holds the raw bag's vertices, all of whose nodes have their children; it keeps a partly built tree, treats the bag and treats only more bags |
| TreeDecompositions.CreateJoin | TD-IS/src/datastructures/tree_decomposition.rs:66-73 | more than one neighbour: a Join with the bag, then a subtree for the first neighbour and one for the rest |
| TreeDecompositions.CreateChain | TD-IS/src/datastructures/tree_decomposition.rs:84-112 | one neighbour: the Introduce and Forget chain, then the neighbour's subtree over its untreated neighbours |
| TreeDecompositions.BuildChain | TD-IS/src/datastructures/tree_decomposition.rs:87-107 | the two chain loops end with a bag holding exactly the neighbour's vertices, under which the neighbour fits |
| TreeDecompositions.LeafCreated | TD-IS/src/datastructures/tree_decomposition.rs:75-82 | no neighbour: a Leaf with the bag is a complete subtree |
| TreeDecompositions.JoinStart | TD-IS/src/datastructures/tree_decomposition.rs:67-69 | a Join with the bag fits where the bag does, and so do its children |
| TreeDecompositions.JoinCreated | TD-IS/src/datastructures/tree_decomposition.rs:66-73 | a Join with two created subtrees is a created subtree |
| TreeDecompositions.ChainStep | TD-IS/src/datastructures/tree_decomposition.rs:94-98 | one more chain node under the end of the chain extends it |
| TreeDecompositions.ChainThen | TD-IS/src/datastructures/tree_decomposition.rs:112 | a subtree under the end of a chain completes it |
| TreeDecompositions.ChainPush | TD-IS/src/datastructures/tree_decomposition.rs:94-106 | one loop step keeps the chain loops' state |
| TreeDecompositions.ChainBegin | TD-IS/src/datastructures/tree_decomposition.rs:91-92 | before the loops: an empty chain, with the bag in hand |
| TreeDecompositions.ChainMiddle | TD-IS/src/datastructures/tree_decomposition.rs:88-101 | after the Introduce loop, no vertex to forget is in hand |
| TreeDecompositions.ChainReady | TD-IS/src/datastructures/tree_decomposition.rs:100-112 | after both loops the bag in hand is the neighbour's, which fits under the chain's end |
| TreeDecompositions.ChainCreated | TD-IS/src/datastructures/tree_decomposition.rs:112 | the neighbour's subtree under the chain completes the subtree of the bag |
| TreeDecompositions.IntroduceElements | TD-IS/src/datastructures/tree_decomposition.rs:93-95 | each Introduce step removes exactly its vertex from the bag in hand |
| TreeDecompositions.ForgetElements | TD-IS/src/datastructures/tree_decomposition.rs:101-103 | each Forget step adds exactly its vertex, which was not there |
| TreeDecompositions.IntroduceChain | TD-IS/src/datastructures/tree_decomposition.rs:93-99 | the Introduce loop leaves the bag less the introduced vertices, one Introduce node per vertex |
| TreeDecompositions.ForgetChain | TD-IS/src/datastructures/tree_decomposition.rs:101-107 | the Forget loop leaves the bag plus the forgotten vertices, one Forget node per vertex |
| TreeDecompositions.RootBuilding | TD-IS/src/datastructures/tree_decomposition.rs:53 | the dummy root alone, with parent `usize::MAX`, is a partly built tree |
| TreeDecompositions.RootTree | TD-IS/src/datastructures/tree_decomposition.rs:53-59 | a subtree created under the dummy root completes a tree of at least two nodes |
| TreeDecompositions.LeafListing | TD-IS/src/datastructures/tree_decomposition.rs:46-48 | a node is a Leaf exactly when it is listed in `leaves` |
| TreeDecompositions.FirstUntreated | TD-IS/src/datastructures/tree_decomposition.rs:27-30 | `find` gives the first untreated bag: untreated, and every earlier one treated |
| TreeDecompositions.ForestPush | TD-IS/src/datastructures/tree_decomposition.rs:32 | pushing a tree rooted at its bag keeps every tree rooted |
| TreeDecompositions.GrowStep | TD-IS/src/datastructures/tree_decomposition.rs:25-33 | one round roots a tree at the first untreated bag and lowers the untreated count |
| TreeDecompositions.Grow | TD-IS/src/datastructures/tree_decomposition.rs:25-35 | the loop of `new` ends with every bag treated, one tree per root, with roots the increasing first-untreated bags |
| TreeDecompositions.GrowRound | TD-IS/src/datastructures/tree_decomposition.rs:26-32 | one round pushes one tree and lowers the untreated count |
| TreeDecompositions.TreeDecomposition.constructor | TD-IS/src/datastructures/tree_decomposition.rs:56-59 | the tree holds the nodes and leaves built |
| TreeDecompositions.TreeDecomposition.Leaves | TD-IS/src/datastructures/tree_decomposition.rs:46-48 | `leaves()` lists, in increasing order, exactly the Leaf nodes |
| TreeDecompositions.TreeDecomposition.FromRoot | TD-IS/src/datastructures/tree_decomposition.rs:50-60 | `from_root` builds a tree whose node 1 holds the root bag's vertices, and treats that bag |
| TreeDecompositions.TreeDecomposition.New | TD-IS/src/datastructures/tree_decomposition.rs:15-36 | every tree is rooted at a bag with a neighbour, and there is a tree exactly when some bag has a neighbour |
| TreeDecompositions.TreeDecomposition.NewCovering | TD-IS/src/datastructures/tree_decomposition.rs:24-36 | without marking bags that have no neighbour, any non-empty decomposition gives a tree rooted at bag 0 |
| TreeDecompositions.OneBag | TD-IS/src/datastructures/tree_decomposition.rs:18-23 | one bag {0} with no neighbour is a usable input |
| TreeDecompositions.OneBagAsWritten | TD-IS/src/datastructures/tree_decomposition.rs:18-23 | `new` as written gives no tree for a one-bag decomposition |
| TreeDecompositions.OneBagCovered | TD-IS/src/datastructures/tree_decomposition.rs:25-33 | without the marking, the one bag roots a tree whose node 1 holds its vertex |
| IsSolver.StartSolving | TD-IS/src/is_solver.rs:12-17 | a built tree with empty tables starts the solver's invariant |
| IsSolver.WaitingStep | TD-IS/src/is_solver.rs:44-45 | filling the current node can only release its parent from waiting |
| IsSolver.FilledFrom | TD-IS/src/is_solver.rs:27-31 | once every leaf is filled, every node is filled: children come later, and a node whose children are filled waits for none |
| IsSolver.Local | TD-IS/src/datastructures/tree_decomposition.rs:62-113 | a non-root node's parent is earlier and lists it; its children are later and fit under it; its bag is duplicate-free |
| IsSolver.ClimbOn | TD-IS/src/is_solver.rs:45 | the parent of a filled node comes earlier and can be worked at |
| IsSolver.Traversable | TD-IS/src/is_solver.rs:43 | a node `can_traverse` admits is not the root and its children are filled |
| IsSolver.ClimbStart | TD-IS/src/is_solver.rs:42 | `traverse_up` starts in its loop's state |
| IsSolver.ClimbReady | TD-IS/src/is_solver.rs:44 | every lookup `update_entries` makes at the current node succeeds |
| IsSolver.ClimbStep | TD-IS/src/is_solver.rs:44-45 | tabulating the current node fills it, empties no table, and moving to its parent keeps the loop's state; the parent comes earlier |
| IsSolver.ClimbDone | TD-IS/src/is_solver.rs:43 | where the walk stops, the tables are right and a start that is neither the root nor a Join is filled |
| IsSolver.InRangeMember | TD-IS/src/datastructures/graph.rs:87 | a vertex of a bag in range has a weight |
| IsSolver.SubBag | TD-IS/src/datastructures/node.rs:72-77 | a subset of a bag is a sub-multiset of a bag holding the same vertices, less `v` |
| IsSolver.SubsetWithin | TD-IS/src/datastructures/node.rs:103-104 | a subset of a Join's bag is a key of each child's table |
| IsSolver.SubsetPlus | TD-IS/src/datastructures/node.rs:73-76 | at a Forget(v) node, S and S plus v sorted are keys of the child's table |
| IsSolver.SubsetMinus | TD-IS/src/datastructures/node.rs:86-96 | at an Introduce(v) node, S less v (or S itself) is a key of the child's table |
| IsSolver.ChildKeys | TD-IS/src/datastructures/node.rs:44-46 | a filled child's table is keyed by its bag's subsets and sound |
| IsSolver.ForgetReady | TD-IS/src/datastructures/node.rs:70-80 | a Forget node over a filled child can be tabulated without a failing lookup |
| IsSolver.IntroduceReady | TD-IS/src/datastructures/node.rs:82-98 | an Introduce node over a filled child can be tabulated without a failing lookup |
| IsSolver.JoinReady | TD-IS/src/datastructures/node.rs:101-113 | a Join over filled children can be tabulated, and its subtraction does not go below zero |
| IsSolver.ReadyAt | TD-IS/src/datastructures/node.rs:58-116 | once its children are filled, any node but the root can be tabulated |
| IsSolver.RecurrenceFrame | TD-IS/src/datastructures/node.rs:58-116 | a node's recurrence reads only its own kind, bag and children, and its children's tables |
| IsSolver.OtherKept | TD-IS/src/is_solver.rs:44 | tabulating an unfilled node leaves every other table right |
| IsSolver.UpdateFresh | TD-IS/src/is_solver.rs:44 | tabulating an unfilled node with filled children fills it with its recurrence and keeps every table right |
| IsSolver.UpdateKeeps | TD-IS/src/is_solver.rs:44 | what `update_entries` leaves at a node keeps every table right, fills the node and empties nothing |
| IsSolver.MergeRecurrence | TD-IS/src/datastructures/node.rs:64-112 | inserting the recurrence into an empty table, or into one that already holds it, gives the recurrence, which holds the empty set |
| IsSolver.FillKeeps | TD-IS/src/is_solver.rs:44 | a non-empty table fills the node and empties no other |
| IsSolver.MaxEntry | TD-IS/src/is_solver.rs:33-39 | `max_by_key` finds an entry exactly when the table is non-empty, and that entry is the largest |
| IsSolver.LeavesDoneStay | TD-IS/src/is_solver.rs:29 | filled leaves stay filled |
| IsSolver.FinishedNext | TD-IS/src/is_solver.rs:28-30 | the first unfinished leaf is the next in order |
| IsSolver.ScheduleStart | TD-IS/src/is_solver.rs:25 | with no leaf finished, `compute_is` starts in its loop's state |
| IsSolver.ScheduleStep | TD-IS/src/is_solver.rs:27-31 | finishing the first unfinished leaf keeps the loop's state and lowers the unfinished count |
| IsSolver.ScheduleDone | TD-IS/src/is_solver.rs:27-31 | when every leaf is finished, all were visited in order and every node is filled |
| IsSolver.LeafStart | TD-IS/src/is_solver.rs:29 | each listed leaf is a Leaf node where `traverse_up` can start |
| IsSolver.AnswerSound | TD-IS/src/is_solver.rs:33-39 | the answer is 0 or at least the weight of an independent set in node 1's table |
| IsSolver.NodeOneTable | TD-IS/src/is_solver.rs:33 | a filled node 1 holds its recurrence, keyed by every subset of its bag |
| IsSolver.SolvedTraceable | TD-IS/src/datastructures/node.rs:120-187 | once every node but the root is filled, `get_solution` can walk the whole tree with flags for every vertex: each lookup it makes finds its subset |
| IsSolver.SolvedRoot | TD-IS/src/datastructures/node.rs:185 | the root has an empty bag and its child further down |
| IsSolver.SolvedBelow | TD-IS/src/datastructures/node.rs:120-185 | a filled node holds every subset of its bag, and the tables of its children hold what a Forget or Join looks up there |
| IsSolver.SolvedChild | TD-IS/src/datastructures/node.rs:131-184 | a filled Forget or Join child's table holds every subset of the parent's bag |
| IsSolver.WalkStep | TD-IS/src/is_solver.rs:44-45 | filling the current node and moving to its parent extends the walk by that node, and only it changes |
| IsSolver.ISSolver.constructor | TD-IS/src/is_solver.rs:12-17 | a solver over a built tree starts with its invariant |
| IsSolver.ISSolver.Solve | TD-IS/src/is_solver.rs:19-22 | `solve` returns the largest entry of node 1, which holds its recurrence keyed by every subset of its bag; the result is 0 or at least the weight of an independent set; the solved tree meets what `get_solution` needs (`Traceable`) |
| IsSolver.ISSolver.ComputeIs | TD-IS/src/is_solver.rs:24-40 | every leaf is visited once, in order; every node but the root ends filled, so `get_solution` can walk the tree; the result is the largest entry of node 1, or 0 when its table is empty |
| IsSolver.ISSolver.TraverseUp | TD-IS/src/is_solver.rs:42-47 | the walk follows parent links from the start and stops at the first node that cannot be traversed (the root, or a Join with an unfilled child); it fills every node on the way and changes no other; it keeps every table right, empties none, and fills a start that is neither the root nor a Join |

## Left out

- `main.rs` is not part of this model. It reads two fixed file paths and
  sums the results of `solve` over the trees. `TD-IS/src/input_tree_decomposition.rs`
  and `vertices.rs` are not part of this model either.
- File reading and messages are left out. `read_to_string(path).unwrap()`
  becomes a `lines: seq<string>` parameter of the two parsers. Every
  `eprintln!` and `eprint!` is dropped, including "No obj val at root" in
  `compute_is`.
- Text is a sequence of Unicode characters. `char::is_whitespace` is
  listed by code point, with no byte-level UTF-8 handling.
- Integer width: weights, sums and table entries are unbounded `nat`. The
  overflow of `usize` additions (in `get_weight_of_set`, in the Introduce
  sum, in the Join sum) is not modelled. A weight label above
  `usize::MAX` does not parse, as in Rust. A subtraction below zero is
  handled in two places:
  - in `update_entries` it is proved never to happen;
  - in `get_solution` (`node.rs:154`, `node.rs:176`) it is the
    `Underflow` outcome. A Rust build with overflow checks panics there; a
    release build wraps around instead (see `Nodes.GetSolution` below).
- `RefCell` borrowing is left out. `get_node` and `get_node_mut` are
  indexing into, and updating of, the node sequence. Nodes are values in
  that sequence, so borrow panics and aliasing are not modelled.
- `FxHashMap` becomes a Dafny `map`, so hash iteration order is not
  modelled. This matters only for ties in `max_by_key`, which do not
  change the value returned.
- `bag.rs` defines no `get_powerset`, although `node.rs` calls it. The power set is the
  sorted subsequences of the sorted bag. That enumeration order is the
  model's own. It decides which candidate `get_solution` picks first, but
  not the value of any table.
- `get_weight` and `get_vertex_name` in graph.rs are plain lookups. They
  are `Weight` and map indexing; `Graphs.NamesInverse` states what
  `get_vertex_name` returns.
- Panics on invalid input are preconditions, not modelled outcomes:
  - `set_vertices` on an unknown name (`KnownLine`, `KnownFields`);
  - a missing table key in `get_weight` (`EntryReady`, `Ready`,
    `Traceable`);
  - a node with too few children.
- TreeDecompositions.TreeDecomposition.New: requires every raw bag to
  list each vertex at most once and only vertices below `size`
  (`InputOK`). A bag that lists a vertex twice would build different
  Introduce and Forget chains, which are not modelled.
- TreeDecompositions.TreeDecomposition.New: does not check that the raw
  decomposition is a tree decomposition of the graph. On a cyclic input
  the model builds a tree over the bags reached, like the source, and
  proves that it terminates.
- IsSolver.ISSolver.Solve: does not state that the result is the
  largest weight of an independent set. That claim is false because of
  the 0 sentinel (`Nodes.ZeroConflated`). Even without the sentinel,
  "achievable" would need the raw decomposition to be a valid tree
  decomposition (vertex cover, edge cover, connectedness), which nothing
  in the source checks.
- IsSolver.ISSolver.Solve: requires a symmetric graph without
  self-loops (`GraphOK`). The parsed graph is symmetric (proved in
  `Graphs.ParsedGraph`). A line `a,a` gives a self-loop, where the
  soundness proof of the Introduce rule does not apply.
- IsSolver.ISSolver.ComputeIs: states soundness and completeness of the
  tables but not that the entries are achieved by an independent set, for
  the reason given for `Solve`.
- Nodes.GetSolution: requires the walk not to underflow; the model's
  `Backtrack` reports a subtraction below zero as `Underflow`. Rust panics
  there only in a build with overflow checks. A release build wraps
  `usize` around, and the model does not follow that walk: at an Introduce
  node (`node.rs:154`) it goes on into the child with a huge objective that
  no entry matches, so nothing below is added; at a Join (`node.rs:176`)
  the wrapped value fails the `== curr_obj` test, so that branch adds
  nothing. The model
  does not prove that the recovered solution is independent or that its
  weight is the objective.

## Findings

| source | as written | input that shows it | evidently intended | confidence | as-written member | corrected member |
|---|---|---|---|---|---|---|
| TD-IS/src/datastructures/tree_decomposition.rs:18-23 | every raw bag without neighbours is marked treated before the loop, so no tree is ever built from it and its vertices never enter any table | a decomposition of one bag `{v}` with no edge line (for a graph with one vertex `v` of weight 5): `new` returns no tree, so the answer is 0 instead of 5 | every bag ends up in some tree: a bag without neighbours is a one-node tree, the Leaf that `create_nodes` already builds for zero neighbours (lines 75-82) | not executed | TreeDecompositions.OneBagAsWritten | TreeDecompositions.OneBagCovered |
