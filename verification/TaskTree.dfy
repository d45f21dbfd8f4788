/** The rows a tree specification turns into, the tree a table holds, and the
    proof that building the second from the first gives the specification back. */
module TaskTree {
  import opened Common
  import opened TaskTypes
  import opened TaskTable

  /** A tree of rows, the shape the report works with. */
  datatype Tree = Tree(id: nat, task: Task, children: seq<Tree>)

  // ---------------------------------------------------------------- sizes

  function Size(node: TreeNode): nat
    decreases node, 1
  {
    1 + SizeFirst(node.children, |node.children|)
  }

  /** Number of rows in the first `i` subtrees. */
  function SizeFirst(nodes: seq<TreeNode>, i: nat): nat
    requires i <= |nodes|
    decreases nodes, 0, i
  {
    if i == 0 then 0 else SizeFirst(nodes, i - 1) + Size(nodes[i - 1])
  }

  // ------------------------------------------------------- planned rows

  function BillingFor(inp: CreateTreeInput, node: TreeNode): string {
    if node.billing == "" then inp.defaultBilling else node.billing
  }

  function StatusFor(inp: CreateTreeInput): Status {
    if inp.initialStatus.None? then Approved else inp.initialStatus.value
  }

  /** The row inserted for one node. */
  function RowFor(inp: CreateTreeInput, node: TreeNode, parent: Option<nat>, ancestry: seq<AncestryNode>): Task {
    Task(inp.goalId, parent, ancestry, |ancestry|, node.title, node.description, node.criteria,
         inp.byAgent, inp.byUser, None, StatusFor(inp), NullableString(BillingFor(inp, node)),
         node.budgetTokens, node.budgetCents, 0, 0, node.heartbeat, node.verifier,
         None, None, None, None, None, None)
  }

  function Extend(ancestry: seq<AncestryNode>, id: nat, node: TreeNode): seq<AncestryNode> {
    ancestry + [AncestryNode(id, node.title, node.criteria)]
  }

  /** The rows of the subtree at `node`, numbered in preorder from `id`. */
  function Planned(inp: CreateTreeInput, node: TreeNode, parent: Option<nat>,
                   ancestry: seq<AncestryNode>, id: nat): Table
    decreases node, 1
  {
    map[id := RowFor(inp, node, parent, ancestry)]
    + PlannedFirst(inp, node.children, |node.children|, id, Extend(ancestry, id, node), id + 1)
  }

  /** The rows of the first `i` subtrees among `nodes`. */
  function PlannedFirst(inp: CreateTreeInput, nodes: seq<TreeNode>, i: nat, parent: nat,
                        ancestry: seq<AncestryNode>, id: nat): Table
    requires i <= |nodes|
    decreases nodes, 0, i
  {
    if i == 0 then map[]
    else PlannedFirst(inp, nodes, i - 1, parent, ancestry, id)
         + Planned(inp, nodes[i - 1], Some(parent), ancestry, id + SizeFirst(nodes, i - 1))
  }

  lemma {:induction false} PlannedKeys(inp: CreateTreeInput, node: TreeNode, parent: Option<nat>,
                                       ancestry: seq<AncestryNode>, id: nat)
    ensures forall k :: k in Planned(inp, node, parent, ancestry, id) <==> id <= k < id + Size(node)
    decreases node, 1
  {
    PlannedFirstKeys(inp, node.children, |node.children|, id, Extend(ancestry, id, node), id + 1);
  }

  lemma {:induction false} PlannedFirstKeys(inp: CreateTreeInput, nodes: seq<TreeNode>, i: nat, parent: nat,
                                            ancestry: seq<AncestryNode>, id: nat)
    requires i <= |nodes|
    ensures forall k :: k in PlannedFirst(inp, nodes, i, parent, ancestry, id) <==> id <= k < id + SizeFirst(nodes, i)
    decreases nodes, 0, i
  {
    if i > 0 {
      PlannedFirstKeys(inp, nodes, i - 1, parent, ancestry, id);
      PlannedKeys(inp, nodes[i - 1], Some(parent), ancestry, id + SizeFirst(nodes, i - 1));
    }
  }

  /** A planned row either is an entry row, with the given parent and snapshot,
      or hangs under another planned row and follows its redundant columns. */
  ghost predicate PlannedRow(plan: Table, k: nat, goalId: nat, parent: Option<nat>, ancestry: seq<AncestryNode>)
    requires k in plan
  {
    && plan[k].goalId == goalId
    && plan[k].depth == |plan[k].ancestry|
    && plan[k].billing != Some("")
    && (|| (plan[k].parent == parent && plan[k].ancestry == ancestry)
        || InnerRow(plan, k))
  }

  ghost predicate InnerRow(plan: Table, k: nat)
    requires k in plan
  {
    match plan[k].parent
    case None => false
    case Some(p) => p in plan && p < k && plan[k].ancestry == plan[p].ancestry + [NodeOf(plan, p)]
  }

  ghost predicate PlanLinked(plan: Table, goalId: nat, parent: Option<nat>, ancestry: seq<AncestryNode>) {
    forall k {:trigger PlannedRow(plan, k, goalId, parent, ancestry)} | k in plan ::
      PlannedRow(plan, k, goalId, parent, ancestry)
  }

  lemma {:induction false} PlannedLinked(inp: CreateTreeInput, node: TreeNode, parent: Option<nat>,
                                         ancestry: seq<AncestryNode>, id: nat)
    ensures PlanLinked(Planned(inp, node, parent, ancestry, id), inp.goalId, parent, ancestry)
    decreases node, 1
  {
    var below := Extend(ancestry, id, node);
    var rest := PlannedFirst(inp, node.children, |node.children|, id, below, id + 1);
    var plan := Planned(inp, node, parent, ancestry, id);
    PlannedFirstLinked(inp, node.children, |node.children|, id, below, id + 1);
    PlannedFirstKeys(inp, node.children, |node.children|, id, below, id + 1);
    assert plan[id] == RowFor(inp, node, parent, ancestry);
    forall k | k in plan ensures PlannedRow(plan, k, inp.goalId, parent, ancestry) {
      if k != id {
        assert PlannedRow(rest, k, inp.goalId, Some(id), below);
        assert InnerRow(plan, k);
      }
    }
  }

  lemma {:induction false} PlannedFirstLinked(inp: CreateTreeInput, nodes: seq<TreeNode>, i: nat, parent: nat,
                                              ancestry: seq<AncestryNode>, id: nat)
    requires i <= |nodes|
    ensures PlanLinked(PlannedFirst(inp, nodes, i, parent, ancestry, id), inp.goalId, Some(parent), ancestry)
    decreases nodes, 0, i
  {
    if i > 0 {
      var at := id + SizeFirst(nodes, i - 1);
      PlannedFirstLinked(inp, nodes, i - 1, parent, ancestry, id);
      PlannedFirstKeys(inp, nodes, i - 1, parent, ancestry, id);
      PlannedLinked(inp, nodes[i - 1], Some(parent), ancestry, at);
      PlannedKeys(inp, nodes[i - 1], Some(parent), ancestry, at);
      PlanLinkedUnion(PlannedFirst(inp, nodes, i - 1, parent, ancestry, id),
                      Planned(inp, nodes[i - 1], Some(parent), ancestry, at), inp.goalId, Some(parent), ancestry);
    }
  }

  lemma PlanLinkedUnion(a: Table, b: Table, goalId: nat, parent: Option<nat>, ancestry: seq<AncestryNode>)
    requires PlanLinked(a, goalId, parent, ancestry) && PlanLinked(b, goalId, parent, ancestry)
    requires forall k | k in a :: k !in b
    ensures PlanLinked(a + b, goalId, parent, ancestry)
  {
    forall k | k in a + b ensures PlannedRow(a + b, k, goalId, parent, ancestry) {
      if k in b {
        assert PlannedRow(b, k, goalId, parent, ancestry);
        assert InnerRow(b, k) ==> InnerRow(a + b, k);
      } else {
        assert PlannedRow(a, k, goalId, parent, ancestry);
        assert InnerRow(a, k) ==> InnerRow(a + b, k);
      }
    }
  }

  /** Adding a whole planned tree to a linked table gives a linked table:
      the snapshots written at creation are the root-to-parent chains. */
  lemma GrownLinked(t: Table, n: nat, inp: CreateTreeInput)
    requires Linked(t) && Below(t, n)
    ensures Linked(t + Planned(inp, inp.root, None, [], n))
    ensures Below(t + Planned(inp, inp.root, None, [], n), n + Size(inp.root))
  {
    PlannedLinked(inp, inp.root, None, [], n);
    PlannedKeys(inp, inp.root, None, [], n);
    var plan := Planned(inp, inp.root, None, [], n);
    var u := t + plan;
    assert forall k | k in t :: k !in plan && u[k] == t[k];
    forall k | k in u ensures PointerDown(u, k) {
      if k in t {
        assert PointerDown(t, k);
      } else {
        assert PlannedRow(plan, k, inp.goalId, None, []);
        assert InnerRow(plan, k) ==> PlannedRow(plan, plan[k].parent.value, inp.goalId, None, []);
      }
    }
    forall k | k in u ensures RowLinked(u, k) {
      if k in t {
        assert RowLinked(t, k);
      } else {
        assert u[k] == plan[k] && PlannedRow(plan, k, inp.goalId, None, []);
      }
    }
  }

  // --------------------------------------------- the tree a table holds

  ghost predicate ChildrenIn(t: Table, n: nat, p: nat, ids: seq<nat>) {
    forall i | 0 <= i < |ids| :: ids[i] in t && p < ids[i] < n
  }

  lemma ChildrenAreIn(t: Table, n: nat, p: nat)
    requires PointersDown(t)
    ensures ChildrenIn(t, n, p, ChildIds(t, p, n))
  {
    var ids := ChildIds(t, p, n);
    forall i | 0 <= i < |ids| ensures ids[i] in t && p < ids[i] < n {
      assert ids[i] in ids && PointerDown(t, ids[i]);
    }
  }

  /** The subtree rooted at `p`, children in increasing id order. */
  ghost function TableTree(t: Table, n: nat, p: nat): Tree
    requires PointersDown(t) && p in t && p < n
    decreases n - p, 1, 0
  {
    var ids := ChildIds(t, p, n);
    ChildrenAreIn(t, n, p);
    Tree(p, t[p], Trees(t, n, p, ids))
  }

  ghost function Trees(t: Table, n: nat, p: nat, ids: seq<nat>): seq<Tree>
    requires PointersDown(t) && p < n && ChildrenIn(t, n, p, ids)
    decreases n - p, 0, |ids|
  {
    if ids == [] then []
    else Trees(t, n, p, ids[..|ids| - 1]) + [TableTree(t, n, ids[|ids| - 1])]
  }

  lemma TreesSnoc(t: Table, n: nat, p: nat, ids: seq<nat>, k: nat)
    requires PointersDown(t) && p < n && ChildrenIn(t, n, p, ids) && k in t && p < k < n
    ensures Trees(t, n, p, ids + [k]) == Trees(t, n, p, ids) + [TableTree(t, n, k)]
  {
    assert (ids + [k])[..|ids|] == ids;
  }

  /** `tree` is what the pointers of `t` say about row `tree.id`. */
  ghost predicate ReadsAs(t: Table, n: nat, tree: Tree)
    decreases tree, 1
  {
    && tree.id in t && tree.id < n && tree.task == t[tree.id]
    && ReadAsAll(t, n, tree.children, ChildIds(t, tree.id, n))
  }

  ghost predicate ReadAsAll(t: Table, n: nat, trees: seq<Tree>, ids: seq<nat>)
    decreases trees, 0
  {
    |trees| == |ids| && forall j | 0 <= j < |trees| :: trees[j].id == ids[j] && ReadsAs(t, n, trees[j])
  }

  lemma ReadAsSnoc(t: Table, n: nat, trees: seq<Tree>, ids: seq<nat>, tree: Tree, k: nat)
    requires ReadAsAll(t, n, trees, ids) && tree.id == k && ReadsAs(t, n, tree)
    ensures ReadAsAll(t, n, trees + [tree], ids + [k])
  {
  }

  /** There is one such tree for each row: the one read off the table. */
  lemma {:induction false} ReadsAsUnique(t: Table, n: nat, tree: Tree)
    requires PointersDown(t) && ReadsAs(t, n, tree)
    ensures tree == TableTree(t, n, tree.id)
    decreases tree
  {
    var ids := ChildIds(t, tree.id, n);
    ChildrenAreIn(t, n, tree.id);
    forall j | 0 <= j < |ids| ensures tree.children[j] == TableTree(t, n, ids[j]) {
      ReadsAsUnique(t, n, tree.children[j]);
    }
    TreesAre(t, n, tree.id, tree.children, ids);
  }

  lemma {:induction false} TreesAre(t: Table, n: nat, p: nat, trees: seq<Tree>, ids: seq<nat>)
    requires PointersDown(t) && p < n && ChildrenIn(t, n, p, ids) && |trees| == |ids|
    requires forall j {:trigger trees[j]} | 0 <= j < |ids| :: trees[j] == TableTree(t, n, ids[j])
    ensures trees == Trees(t, n, p, ids)
    decreases |ids|
  {
    if ids != [] {
      var m := |ids| - 1;
      TreesAre(t, n, p, trees[..m], ids[..m]);
      assert trees == trees[..m] + [trees[m]];
    }
  }

  lemma {:induction false} TableTreeReadsAs(t: Table, n: nat, p: nat)
    requires PointersDown(t) && p in t && p < n
    ensures ReadsAs(t, n, TableTree(t, n, p))
    decreases n - p, 1, 0
  {
    ChildrenAreIn(t, n, p);
    TreesReadAs(t, n, p, ChildIds(t, p, n));
  }

  lemma {:induction false} TreesReadAs(t: Table, n: nat, p: nat, ids: seq<nat>)
    requires PointersDown(t) && p < n && ChildrenIn(t, n, p, ids)
    ensures ReadAsAll(t, n, Trees(t, n, p, ids), ids)
    decreases n - p, 0, |ids|
  {
    if ids != [] {
      var init, k := ids[..|ids| - 1], ids[|ids| - 1];
      TreesReadAs(t, n, p, init);
      TableTreeReadsAs(t, n, k);
      ReadAsSnoc(t, n, Trees(t, n, p, init), init, TableTree(t, n, k), k);
      assert ids == init + [k];
    }
  }

  /** The tree CreateTree is asked for, with the ids it will carry. */
  function Asked(inp: CreateTreeInput, node: TreeNode, parent: Option<nat>,
                 ancestry: seq<AncestryNode>, id: nat): Tree
    decreases node, 1
  {
    Tree(id, RowFor(inp, node, parent, ancestry),
         AskedFirst(inp, node.children, |node.children|, id, Extend(ancestry, id, node), id + 1))
  }

  function AskedFirst(inp: CreateTreeInput, nodes: seq<TreeNode>, i: nat, parent: nat,
                      ancestry: seq<AncestryNode>, id: nat): seq<Tree>
    requires i <= |nodes|
    decreases nodes, 0, i
  {
    if i == 0 then []
    else AskedFirst(inp, nodes, i - 1, parent, ancestry, id)
         + [Asked(inp, nodes[i - 1], Some(parent), ancestry, id + SizeFirst(nodes, i - 1))]
  }

  /** The last of the first `i` trees, at its own id. */
  lemma AskedFirstLast(inp: CreateTreeInput, nodes: seq<TreeNode>, i: nat, parent: nat, ancestry: seq<AncestryNode>,
                       id: nat, at: nat)
    requires 0 < i <= |nodes| && at == id + SizeFirst(nodes, i - 1)
    ensures AskedFirst(inp, nodes, i, parent, ancestry, id)
         == AskedFirst(inp, nodes, i - 1, parent, ancestry, id) + [Asked(inp, nodes[i - 1], Some(parent), ancestry, at)]
  {
  }

  /** Ids of the first nodes of the first `i` subtrees. */
  function FirstIds(nodes: seq<TreeNode>, i: nat, id: nat): (ids: seq<nat>)
    requires i <= |nodes|
    ensures Increasing(ids) && |ids| == i
    ensures forall k | k in ids :: id <= k < id + SizeFirst(nodes, i)
  {
    if i == 0 then []
    else
      var ids := FirstIds(nodes, i - 1, id);
      assert forall j :: 0 <= j < |ids| ==> ids[j] in ids;
      ids + [id + SizeFirst(nodes, i - 1)]
  }

  /** A planned row points at the common parent, if it starts a subtree, and
      otherwise at a row planned within `lo..hi`. */
  ghost predicate PointsWithin(row: Task, starts: bool, parent: nat, lo: nat, hi: nat) {
    row.parent.Some? && if starts then row.parent.value == parent else lo <= row.parent.value < hi
  }

  ghost predicate AllPointWithin(plan: Table, ids: seq<nat>, parent: nat, lo: nat, hi: nat) {
    forall k | k in plan :: PointsWithin(plan[k], k in ids, parent, lo, hi)
  }

  lemma {:induction false} PlannedParents(inp: CreateTreeInput, node: TreeNode, parent: Option<nat>,
                                          ancestry: seq<AncestryNode>, id: nat)
    ensures PointsUp(Planned(inp, node, parent, ancestry, id), parent, id, id + Size(node))
    decreases node, 1
  {
    var below, i := Extend(ancestry, id, node), |node.children|;
    var rest := PlannedFirst(inp, node.children, i, id, below, id + 1);
    var plan := Planned(inp, node, parent, ancestry, id);
    PlannedFirstKeys(inp, node.children, i, id, below, id + 1);
    PlannedFirstParents(inp, node.children, i, id, below, id + 1, id + Size(node));
    forall k | k in plan && k != id ensures PointsWithin(plan[k], false, id, id, id + Size(node)) {
      assert PointsWithin(rest[k], k in FirstIds(node.children, i, id + 1), id, id + 1, id + Size(node));
    }
  }

  lemma {:induction false} PlannedFirstParents(inp: CreateTreeInput, nodes: seq<TreeNode>, i: nat, parent: nat,
                                               ancestry: seq<AncestryNode>, id: nat, hi: nat)
    requires i <= |nodes| && parent < id && hi == id + SizeFirst(nodes, i)
    ensures AllPointWithin(PlannedFirst(inp, nodes, i, parent, ancestry, id), FirstIds(nodes, i, id), parent, id, hi)
    decreases nodes, 0, i
  {
    if i > 0 {
      var last, at := nodes[i - 1], id + SizeFirst(nodes, i - 1);
      PlannedFirstLast(inp, nodes, i, parent, ancestry, id, at);
      PlannedFirstParents(inp, nodes, i - 1, parent, ancestry, id, at);
      PlannedFirstSpans(inp, nodes, i - 1, parent, ancestry, id, at);
      PlannedSpans(inp, last, Some(parent), ancestry, at, hi);
      PlannedParents(inp, last, Some(parent), ancestry, at);
      PointsUpAt(Planned(inp, last, Some(parent), ancestry, at), Some(parent), at, at + Size(last), hi);
      PointWithinUnion(PlannedFirst(inp, nodes, i - 1, parent, ancestry, id), Planned(inp, last, Some(parent), ancestry, at),
                       PlannedFirst(inp, nodes, i, parent, ancestry, id), FirstIds(nodes, i - 1, id), FirstIds(nodes, i, id),
                       parent, id, at, hi);
    }
  }

  /** The last of the first `i` subtrees, at its own id. */
  lemma PlannedFirstLast(inp: CreateTreeInput, nodes: seq<TreeNode>, i: nat, parent: nat, ancestry: seq<AncestryNode>,
                         id: nat, at: nat)
    requires 0 < i <= |nodes| && at == id + SizeFirst(nodes, i - 1)
    ensures PlannedFirst(inp, nodes, i, parent, ancestry, id)
         == PlannedFirst(inp, nodes, i - 1, parent, ancestry, id) + Planned(inp, nodes[i - 1], Some(parent), ancestry, at)
    ensures FirstIds(nodes, i, id) == FirstIds(nodes, i - 1, id) + [at]
    ensures id + SizeFirst(nodes, i) == at + Size(nodes[i - 1])
  {
  }

  /** The ids of a plan are those of the range. */
  ghost predicate Spans(plan: Table, lo: nat, hi: nat) {
    forall k :: k in plan <==> lo <= k < hi
  }

  lemma PlannedFirstSpans(inp: CreateTreeInput, nodes: seq<TreeNode>, i: nat, parent: nat, ancestry: seq<AncestryNode>,
                          id: nat, hi: nat)
    requires i <= |nodes| && hi == id + SizeFirst(nodes, i)
    ensures Spans(PlannedFirst(inp, nodes, i, parent, ancestry, id), id, hi)
    ensures forall k | k in FirstIds(nodes, i, id) :: k < hi
  {
    PlannedFirstKeys(inp, nodes, i, parent, ancestry, id);
  }

  lemma PlannedSpans(inp: CreateTreeInput, node: TreeNode, parent: Option<nat>, ancestry: seq<AncestryNode>, id: nat,
                     hi: nat)
    requires hi == id + Size(node)
    ensures Spans(Planned(inp, node, parent, ancestry, id), id, hi) && id < hi
  {
    PlannedKeys(inp, node, parent, ancestry, id);
  }

  /** Row `id` points at `parent`, all others into `id..hi`. */
  ghost predicate PointsUp(plan: Table, parent: Option<nat>, id: nat, hi: nat) {
    && id in plan && plan[id].parent == parent
    && forall k | k in plan && k != id :: PointsWithin(plan[k], false, id, id, hi)
  }

  lemma PointsUpAt(plan: Table, parent: Option<nat>, id: nat, end: nat, hi: nat)
    requires PointsUp(plan, parent, id, end) && end == hi
    ensures PointsUp(plan, parent, id, hi)
  {
  }

  lemma PointWithinUnion(a: Table, b: Table, all: Table, ids: seq<nat>, allIds: seq<nat>, parent: nat, lo: nat, at: nat,
                         hi: nat)
    requires all == a + b && allIds == ids + [at] && AllPointWithin(a, ids, parent, lo, at) && lo <= at < hi
    requires Spans(a, lo, at) && Spans(b, at, hi) && forall k | k in ids :: k < at
    requires PointsUp(b, Some(parent), at, hi)
    ensures AllPointWithin(all, allIds, parent, lo, hi)
  {
    forall k | k in all ensures PointsWithin(all[k], k in allIds, parent, lo, hi) {
      if k in b {
        assert k != at ==> PointsWithin(b[k], false, at, at, hi);
      } else {
        assert PointsWithin(a[k], k in ids, parent, lo, at);
      }
    }
  }

  ghost predicate SameRow(t: Table, plan: Table, k: nat) {
    k in plan && k in t && t[k] == plan[k]
  }

  /** If row `k` points into `lo..hi` then it lies there. */
  ghost predicate PointsFromWithin(t: Table, k: nat, lo: nat, hi: nat)
    requires k in t
  {
    t[k].parent.Some? && lo <= t[k].parent.value < hi ==> lo <= k < hi
  }

  /** `t` holds `plan` on the ids `lo..hi`, and points into that range only from within. */
  ghost predicate Holds(t: Table, plan: Table, lo: nat, hi: nat) {
    && (forall k {:trigger SameRow(t, plan, k)} | lo <= k < hi :: SameRow(t, plan, k))
    && (forall k {:trigger PointsFromWithin(t, k, lo, hi)} | k in t :: PointsFromWithin(t, k, lo, hi))
  }

  /** Consecutive subtrees under one parent can be looked at one at a time. */
  lemma SplitHolds(t: Table, a: Table, b: Table, ids: seq<nat>, parent: nat, lo: nat, mid: nat, hi: nat)
    requires parent < lo <= mid < hi
    requires forall k :: k in a <==> lo <= k < mid
    requires forall k :: k in b <==> mid <= k < hi
    requires AllPointWithin(a, ids, parent, lo, mid)
    requires b[mid].parent == Some(parent)
    requires forall k | k in b && k != mid :: PointsWithin(b[k], false, mid, mid, hi)
    requires Holds(t, a + b, lo, hi)
    ensures Holds(t, a, lo, mid) && Holds(t, b, mid, hi)
  {
    forall k | lo <= k < mid ensures SameRow(t, a, k) {
      assert SameRow(t, a + b, k);
    }
    forall k | mid <= k < hi ensures SameRow(t, b, k) {
      assert SameRow(t, a + b, k);
    }
    forall k | k in t ensures PointsFromWithin(t, k, lo, mid) && PointsFromWithin(t, k, mid, hi) {
      assert PointsFromWithin(t, k, lo, hi);
      if lo <= k < mid {
        assert SameRow(t, a, k) && PointsWithin(a[k], k in ids, parent, lo, mid);
      } else if mid <= k < hi {
        assert SameRow(t, b, k);
        assert k != mid ==> PointsWithin(b[k], false, mid, mid, hi);
      }
    }
  }

  /** The children the table gives `id` are the rows that start its subtrees. */
  lemma HeldChildren(t: Table, n: nat, rest: Table, ids: seq<nat>, id: nat, hi: nat)
    requires PointersDown(t) && id < hi <= n && Increasing(ids)
    requires forall k | k in ids :: id < k < hi
    requires AllPointWithin(rest, ids, id, id + 1, hi)
    requires Holds(t, rest, id + 1, hi)
    requires forall k {:trigger PointsFromWithin(t, k, id, hi)} | k in t :: PointsFromWithin(t, k, id, hi)
    ensures ChildIds(t, id, n) == ids
  {
    forall k ensures k in ids <==> k in ChildIds(t, id, n) {
      if id < k < hi {
        assert SameRow(t, rest, k) && PointsWithin(rest[k], k in ids, id, id + 1, hi);
      } else if k in t {
        assert PointsFromWithin(t, k, id, hi);
        assert PointerDown(t, k);
      }
    }
    IncreasingUnique(ids, ChildIds(t, id, n));
  }

  /** Holding a planned subtree: its first row, its children's ids, and what lies below. */
  lemma HeldBelow(t: Table, n: nat, inp: CreateTreeInput, node: TreeNode,
                  parent: Option<nat>, ancestry: seq<AncestryNode>, id: nat)
    requires PointersDown(t) && id + Size(node) <= n
    requires parent.Some? ==> parent.value < id
    requires Holds(t, Planned(inp, node, parent, ancestry, id), id, id + Size(node))
    ensures id in t && t[id] == RowFor(inp, node, parent, ancestry)
    ensures ChildIds(t, id, n) == FirstIds(node.children, |node.children|, id + 1)
    ensures Holds(t, PlannedFirst(inp, node.children, |node.children|, id, Extend(ancestry, id, node), id + 1),
                  id + 1, id + Size(node))
  {
    var below, hi, i := Extend(ancestry, id, node), id + Size(node), |node.children|;
    var rest := PlannedFirst(inp, node.children, i, id, below, id + 1);
    var plan := Planned(inp, node, parent, ancestry, id);
    PlannedFirstKeys(inp, node.children, i, id, below, id + 1);
    PlannedFirstParents(inp, node.children, i, id, below, id + 1, id + Size(node));
    assert SameRow(t, plan, id);
    forall k | id + 1 <= k < hi ensures SameRow(t, rest, k) {
      assert SameRow(t, plan, k);
    }
    forall k | k in t ensures PointsFromWithin(t, k, id + 1, hi) {
      assert PointsFromWithin(t, k, id, hi);
      assert k == id ==> SameRow(t, plan, k);
    }
    HeldChildren(t, n, rest, FirstIds(node.children, i, id + 1), id, hi);
  }

  lemma HeldParts(t: Table, inp: CreateTreeInput, nodes: seq<TreeNode>, i: nat,
                  parent: nat, ancestry: seq<AncestryNode>, id: nat)
    requires parent < id && i < |nodes|
    requires Holds(t, PlannedFirst(inp, nodes, i + 1, parent, ancestry, id), id, id + SizeFirst(nodes, i + 1))
    ensures var at := id + SizeFirst(nodes, i);
            && Holds(t, PlannedFirst(inp, nodes, i, parent, ancestry, id), id, at)
            && Holds(t, Planned(inp, nodes[i], Some(parent), ancestry, at), at, at + Size(nodes[i]))
  {
    var at := id + SizeFirst(nodes, i);
    PlannedFirstKeys(inp, nodes, i, parent, ancestry, id);
    PlannedFirstParents(inp, nodes, i, parent, ancestry, id, at);
    PlannedKeys(inp, nodes[i], Some(parent), ancestry, at);
    PlannedParents(inp, nodes[i], Some(parent), ancestry, at);
    SplitHolds(t, PlannedFirst(inp, nodes, i, parent, ancestry, id), Planned(inp, nodes[i], Some(parent), ancestry, at),
               FirstIds(nodes, i, id), parent, id, at, at + Size(nodes[i]));
  }

  /** Wherever a table holds the planned rows, the tree read back from its
      parent pointers is the tree that was asked for, siblings in order. */
  lemma {:induction false} HeldTree(t: Table, n: nat, inp: CreateTreeInput, node: TreeNode,
                                    parent: Option<nat>, ancestry: seq<AncestryNode>, id: nat)
    requires PointersDown(t) && id + Size(node) <= n
    requires parent.Some? ==> parent.value < id
    requires Holds(t, Planned(inp, node, parent, ancestry, id), id, id + Size(node))
    ensures ReadsAs(t, n, Asked(inp, node, parent, ancestry, id))
    decreases node, 1
  {
    HeldBelow(t, n, inp, node, parent, ancestry, id);
    HeldTrees(t, n, inp, node.children, |node.children|, id, Extend(ancestry, id, node), id + 1);
  }

  lemma {:induction false} HeldTrees(t: Table, n: nat, inp: CreateTreeInput, nodes: seq<TreeNode>, i: nat,
                                     parent: nat, ancestry: seq<AncestryNode>, id: nat)
    requires PointersDown(t) && i <= |nodes| && parent < id && id + SizeFirst(nodes, i) <= n
    requires Holds(t, PlannedFirst(inp, nodes, i, parent, ancestry, id), id, id + SizeFirst(nodes, i))
    ensures ReadAsAll(t, n, AskedFirst(inp, nodes, i, parent, ancestry, id), FirstIds(nodes, i, id))
    decreases nodes, 0, i
  {
    if i > 0 {
      var at := id + SizeFirst(nodes, i - 1);
      HeldParts(t, inp, nodes, i - 1, parent, ancestry, id);
      HeldTrees(t, n, inp, nodes, i - 1, parent, ancestry, id);
      HeldTree(t, n, inp, nodes[i - 1], Some(parent), ancestry, at);
      ReadAsSnoc(t, n, AskedFirst(inp, nodes, i - 1, parent, ancestry, id), FirstIds(nodes, i - 1, id),
                 Asked(inp, nodes[i - 1], Some(parent), ancestry, at), at);
    }
  }

  // ------------------------------------------------- agreement with the specification

  /** A new row, column by column: what the node says, its own billing code
      before the default one, the given status or approved, and nothing done yet. */
  ghost predicate RowAgrees(inp: CreateTreeInput, node: TreeNode, row: Task) {
    && row.goalId == inp.goalId && row.byAgent == inp.byAgent && row.byUser == inp.byUser
    && row.title == node.title && row.description == node.description && row.criteria == node.criteria
    && row.budgetTokens == node.budgetTokens && row.budgetCents == node.budgetCents
    && row.verifier == node.verifier && row.heartbeat == node.heartbeat
    && (node.billing != "" ==> row.billing == Some(node.billing))
    && (node.billing == "" && inp.defaultBilling != "" ==> row.billing == Some(inp.defaultBilling))
    && (node.billing == "" && inp.defaultBilling == "" ==> row.billing == None)
    && (inp.initialStatus.Some? ==> row.status == inp.initialStatus.value)
    && (inp.initialStatus.None? ==> row.status == Approved)
    && row.assignee == None && row.spentTokens == 0 && row.spentCents == 0
    && row.claimMessage == None && row.completionMessage == None && row.failureReason == None
    && row.claimedAt == None && row.startedAt == None && row.completedAt == None
  }

  /** A tree of new rows agrees with a specification, node by node, children in order. */
  ghost predicate Agrees(inp: CreateTreeInput, node: TreeNode, tree: Tree)
    decreases node
  {
    && RowAgrees(inp, node, tree.task)
    && |tree.children| == |node.children|
    && forall i | 0 <= i < |node.children| :: Agrees(inp, node.children[i], tree.children[i])
  }

  lemma {:induction false} AskedAgrees(inp: CreateTreeInput, node: TreeNode, parent: Option<nat>,
                                       ancestry: seq<AncestryNode>, id: nat)
    ensures Agrees(inp, node, Asked(inp, node, parent, ancestry, id))
    decreases node
  {
    var below, n := Extend(ancestry, id, node), |node.children|;
    AskedLength(inp, node.children, n, id, below, id + 1);
    forall i | 0 <= i < n ensures Agrees(inp, node.children[i], Asked(inp, node, parent, ancestry, id).children[i]) {
      AskedAt(inp, node.children, n, id, below, id + 1, i, id + 1 + SizeFirst(node.children, i));
      AskedAgrees(inp, node.children[i], Some(id), below, id + 1 + SizeFirst(node.children, i));
    }
  }

  lemma {:induction false} AskedAt(inp: CreateTreeInput, nodes: seq<TreeNode>, n: nat, parent: nat,
                                   ancestry: seq<AncestryNode>, id: nat, i: nat, at: nat)
    requires i < n <= |nodes| && at == id + SizeFirst(nodes, i)
    ensures |AskedFirst(inp, nodes, n, parent, ancestry, id)| == n
    ensures AskedFirst(inp, nodes, n, parent, ancestry, id)[i] == Asked(inp, nodes[i], Some(parent), ancestry, at)
    decreases n
  {
    AskedFirstLast(inp, nodes, n, parent, ancestry, id, id + SizeFirst(nodes, n - 1));
    AskedLength(inp, nodes, n - 1, parent, ancestry, id);
    if i < n - 1 {
      AskedAt(inp, nodes, n - 1, parent, ancestry, id, i, at);
    }
  }

  lemma {:induction false} AskedLength(inp: CreateTreeInput, nodes: seq<TreeNode>, n: nat, parent: nat,
                                       ancestry: seq<AncestryNode>, id: nat)
    requires n <= |nodes|
    ensures |AskedFirst(inp, nodes, n, parent, ancestry, id)| == n
    decreases n
  {
    if n > 0 {
      AskedLength(inp, nodes, n - 1, parent, ancestry, id);
    }
  }

  // ------------------------------------------------- later tables

  /** The columns a task is created with, the parent pointer among them. */
  ghost predicate SameAsked(a: Task, b: Task) {
    && a.parent == b.parent && a.title == b.title && a.description == b.description && a.criteria == b.criteria
    && a.billing == b.billing && a.budgetTokens == b.budgetTokens && a.budgetCents == b.budgetCents
    && a.verifier == b.verifier && a.heartbeat == b.heartbeat
  }

  /** Same ids in the same places, same columns as created. */
  ghost predicate SameTree(a: Tree, b: Tree)
    decreases a
  {
    && a.id == b.id && SameAsked(a.task, b.task) && |a.children| == |b.children|
    && forall i | 0 <= i < |a.children| :: SameTree(a.children[i], b.children[i])
  }

  ghost predicate KeepsRow(t: Table, u: Table, k: nat)
    requires k in t
  {
    k in u && SameAsked(t[k], u[k])
  }

  /** `u` still has every row of `t` as it was asked for, and what it has more hangs under nothing old. */
  ghost predicate Keeps(t: Table, u: Table, n: nat) {
    && (forall k {:trigger KeepsRow(t, u, k)} | k in t :: KeepsRow(t, u, k))
    && (forall k | k in u && k !in t :: k >= n && (u[k].parent.Some? ==> u[k].parent.value >= n))
  }

  lemma KeptChildren(t: Table, n: nat, u: Table, m: nat, p: nat)
    requires Below(t, n) && n <= m && p < n && Keeps(t, u, n)
    ensures ChildIds(u, p, m) == ChildIds(t, p, n)
  {
    forall k ensures k in ChildIds(u, p, m) <==> k in ChildIds(t, p, n) {
      assert k in t ==> KeepsRow(t, u, k);
    }
    IncreasingUnique(ChildIds(u, p, m), ChildIds(t, p, n));
  }

  /** The tree at an old row is still the same. */
  lemma {:induction false} KeptTree(t: Table, n: nat, u: Table, m: nat, p: nat)
    requires PointersDown(t) && PointersDown(u) && Below(t, n) && n <= m && p in t && p in u && Keeps(t, u, n)
    ensures SameTree(TableTree(t, n, p), TableTree(u, m, p))
    decreases n - p
  {
    var ids := ChildIds(t, p, n);
    KeptChildren(t, n, u, m, p);
    ChildrenAreIn(t, n, p);
    ChildrenAreIn(u, m, p);
    assert KeepsRow(t, u, p);
    TreesAt(t, n, p, ids);
    TreesAt(u, m, p, ids);
    forall i | 0 <= i < |ids| ensures SameTree(Trees(t, n, p, ids)[i], Trees(u, m, p, ids)[i]) {
      KeptTree(t, n, u, m, ids[i]);
    }
  }

  lemma {:induction false} TreesAt(t: Table, n: nat, p: nat, ids: seq<nat>)
    requires PointersDown(t) && p < n && ChildrenIn(t, n, p, ids)
    ensures |Trees(t, n, p, ids)| == |ids|
    ensures forall i | 0 <= i < |ids| :: Trees(t, n, p, ids)[i] == TableTree(t, n, ids[i])
    decreases |ids|
  {
    if ids != [] {
      TreesAt(t, n, p, ids[..|ids| - 1]);
    }
  }

  lemma {:induction false} SameTreeChain(a: Tree, b: Tree, c: Tree)
    requires SameTree(a, b) && SameTree(b, c)
    ensures SameTree(a, c)
    decreases a
  {
    forall i | 0 <= i < |a.children| ensures SameTree(a.children[i], c.children[i]) {
      SameTreeChain(a.children[i], b.children[i], c.children[i]);
    }
  }

  lemma {:induction false} SameTreeSelf(a: Tree)
    ensures SameTree(a, a)
    decreases a
  {
    forall i | 0 <= i < |a.children| ensures SameTree(a.children[i], a.children[i]) {
      SameTreeSelf(a.children[i]);
    }
  }

  /** Flatten, then rebuild: after the planned rows are added to any linked
      table, the tree at the new root is the specification that was given. */
  lemma FlattenRebuild(t: Table, n: nat, inp: CreateTreeInput)
    requires Linked(t) && Below(t, n)
    ensures var u := t + Planned(inp, inp.root, None, [], n);
            && Linked(u) && Below(u, n + Size(inp.root)) && n in u && u[n].parent.None?
            && TableTree(u, n + Size(inp.root), n) == Asked(inp, inp.root, None, [], n)
            && Agrees(inp, inp.root, TableTree(u, n + Size(inp.root), n))
  {
    GrownLinked(t, n, inp);
    GrownHolds(t, n, inp);
    HeldTree(t + Planned(inp, inp.root, None, [], n), n + Size(inp.root), inp, inp.root, None, [], n);
    ReadsAsUnique(t + Planned(inp, inp.root, None, [], n), n + Size(inp.root), Asked(inp, inp.root, None, [], n));
    AskedAgrees(inp, inp.root, None, [], n);
  }

  lemma GrownHolds(t: Table, n: nat, inp: CreateTreeInput)
    requires Linked(t) && Below(t, n)
    ensures var plan := Planned(inp, inp.root, None, [], n);
            Holds(t + plan, plan, n, n + Size(inp.root)) && (t + plan)[n].parent.None?
  {
    GrownLinked(t, n, inp);
    PlannedKeys(inp, inp.root, None, [], n);
    PlannedParents(inp, inp.root, None, [], n);
    var plan := Planned(inp, inp.root, None, [], n);
    var u := t + plan;
    forall k | n <= k < n + Size(inp.root) ensures SameRow(u, plan, k) {
    }
    forall k | k in u ensures PointsFromWithin(u, k, n, n + Size(inp.root)) {
      assert PointerDown(u, k);
    }
  }
}
