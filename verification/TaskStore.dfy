/** The goal_tasks table with the service on top of it. One field per table,
    one method per call; each SQL statement is one assignment to `rows`. */
module TaskStore {
  import opened Common
  import opened TaskTypes
  import opened TaskTable
  import opened TaskTree
  import opened TaskLifecycle
  import opened Rollup
  import Text

  /** Outside failures of one CreateTree call: beginning, each insert, the commit. */
  datatype Faults = Faults(begin: bool, refuses: set<nat>, commit: bool)

  datatype Created = Created(rootId: nat, allIds: seq<nat>)

  /** `id, id + 1, …`, `len` numbers. */
  function Range(id: nat, len: nat): (ids: seq<nat>)
    ensures |ids| == len && forall i :: 0 <= i < len ==> ids[i] == id + i
  {
    seq(len, i requires 0 <= i < len => id + i)
  }

  lemma RangeJoin(acc: seq<nat>, id: nat, a: nat, b: nat)
    ensures acc + [id] == acc + Range(id, 1)
    ensures acc + Range(id, a) + Range(id + a, b) == acc + Range(id, a + b)
    ensures Range(id, a) + Range(id + a, b) == Range(id, a + b)
  {
  }

  function Preorder(tree: Tree): seq<nat>
    decreases tree, 1
  {
    [tree.id] + Preorders(tree.children)
  }

  function Preorders(trees: seq<Tree>): seq<nat>
    decreases trees, 0
  {
    if trees == [] then [] else Preorders(trees[..|trees| - 1]) + Preorder(trees[|trees| - 1])
  }

  /** Insertion order is preorder. */
  lemma {:induction false} AskedPreorder(inp: CreateTreeInput, node: TreeNode, parent: Option<nat>,
                                         ancestry: seq<AncestryNode>, id: nat)
    ensures Preorder(Asked(inp, node, parent, ancestry, id)) == Range(id, Size(node))
    decreases node, 1
  {
    AskedPreorders(inp, node.children, |node.children|, id, Extend(ancestry, id, node), id + 1);
  }

  lemma {:induction false} AskedPreorders(inp: CreateTreeInput, nodes: seq<TreeNode>, i: nat, parent: nat,
                                          ancestry: seq<AncestryNode>, id: nat)
    requires i <= |nodes|
    ensures Preorders(AskedFirst(inp, nodes, i, parent, ancestry, id)) == Range(id, SizeFirst(nodes, i))
    decreases nodes, 0, i
  {
    if i > 0 {
      var at := id + SizeFirst(nodes, i - 1);
      AskedFirstLast(inp, nodes, i, parent, ancestry, id, at);
      AskedPreorders(inp, nodes, i - 1, parent, ancestry, id);
      AskedPreorder(inp, nodes[i - 1], Some(parent), ancestry, at);
      LastPreorder(AskedFirst(inp, nodes, i - 1, parent, ancestry, id), Asked(inp, nodes[i - 1], Some(parent), ancestry, at),
                   AskedFirst(inp, nodes, i, parent, ancestry, id), id, SizeFirst(nodes, i - 1), Size(nodes[i - 1]), SizeFirst(nodes, i));
    }
  }

  lemma LastPreorder(front: seq<Tree>, last: Tree, trees: seq<Tree>, id: nat, a: nat, b: nat, c: nat)
    requires a + b == c && trees == front + [last] && Preorders(front) == Range(id, a) && Preorder(last) == Range(id + a, b)
    ensures Preorders(trees) == Range(id, c)
  {
    PreordersSnoc(front, last);
    RangeJoin([], id, a, b);
  }

  lemma PreordersSnoc(trees: seq<Tree>, tree: Tree)
    ensures Preorders(trees + [tree]) == Preorders(trees) + Preorder(tree)
  {
    assert (trees + [tree])[..|trees|] == trees;
  }

  /** Every insert of the subtree at `node` goes through. */
  predicate Fits(inp: CreateTreeInput, node: TreeNode, parent: Option<nat>, ancestry: seq<AncestryNode>, id: nat,
                 refuses: set<nat>)
    decreases node, 1
  {
    && Insertable(RowFor(inp, node, parent, ancestry), id, refuses)
    && FirstFit(inp, node.children, |node.children|, id, Extend(ancestry, id, node), id + 1, refuses)
  }

  predicate FirstFit(inp: CreateTreeInput, nodes: seq<TreeNode>, i: nat, parent: nat, ancestry: seq<AncestryNode>,
                     id: nat, refuses: set<nat>)
    requires i <= |nodes|
    decreases nodes, 0, i
  {
    i == 0
    || (&& FirstFit(inp, nodes, i - 1, parent, ancestry, id, refuses)
        && Fits(inp, nodes[i - 1], Some(parent), ancestry, id + SizeFirst(nodes, i - 1), refuses))
  }

  lemma {:induction false} FitsIsInsertable(inp: CreateTreeInput, node: TreeNode, parent: Option<nat>,
                                            ancestry: seq<AncestryNode>, id: nat, refuses: set<nat>)
    ensures Fits(inp, node, parent, ancestry, id, refuses)
       <==> AllInsertable(Planned(inp, node, parent, ancestry, id), refuses)
    decreases node, 1
  {
    var below, i := Extend(ancestry, id, node), |node.children|;
    var first := map[id := RowFor(inp, node, parent, ancestry)];
    FirstFitIsInsertable(inp, node.children, i, id, below, id + 1, refuses);
    PlannedFirstKeys(inp, node.children, i, id, below, id + 1);
    MergedInsertable(first, PlannedFirst(inp, node.children, i, id, below, id + 1),
                     Planned(inp, node, parent, ancestry, id), refuses);
    assert AllInsertable(first, refuses) <==> Insertable(first[id], id, refuses);
  }

  lemma {:induction false} FirstFitIsInsertable(inp: CreateTreeInput, nodes: seq<TreeNode>, i: nat, parent: nat,
                                                ancestry: seq<AncestryNode>, id: nat, refuses: set<nat>)
    requires i <= |nodes|
    ensures FirstFit(inp, nodes, i, parent, ancestry, id, refuses)
       <==> AllInsertable(PlannedFirst(inp, nodes, i, parent, ancestry, id), refuses)
    decreases nodes, 0, i
  {
    if i > 0 {
      var at := id + SizeFirst(nodes, i - 1);
      FirstFitLast(inp, nodes, i, parent, ancestry, id, at, refuses);
      FirstFitIsInsertable(inp, nodes, i - 1, parent, ancestry, id, refuses);
      FitsIsInsertable(inp, nodes[i - 1], Some(parent), ancestry, at, refuses);
      PlannedFirstKeys(inp, nodes, i - 1, parent, ancestry, id);
      PlannedKeys(inp, nodes[i - 1], Some(parent), ancestry, at);
      MergedInsertable(PlannedFirst(inp, nodes, i - 1, parent, ancestry, id),
                       Planned(inp, nodes[i - 1], Some(parent), ancestry, at),
                       PlannedFirst(inp, nodes, i, parent, ancestry, id), refuses);
    }
  }

  /** The last of the first `i` subtrees, at its own id. */
  lemma FirstFitLast(inp: CreateTreeInput, nodes: seq<TreeNode>, i: nat, parent: nat, ancestry: seq<AncestryNode>,
                     id: nat, at: nat, refuses: set<nat>)
    requires 0 < i <= |nodes| && at == id + SizeFirst(nodes, i - 1)
    ensures FirstFit(inp, nodes, i, parent, ancestry, id, refuses)
       <==> && FirstFit(inp, nodes, i - 1, parent, ancestry, id, refuses)
            && Fits(inp, nodes[i - 1], Some(parent), ancestry, at, refuses)
    ensures PlannedFirst(inp, nodes, i, parent, ancestry, id)
         == PlannedFirst(inp, nodes, i - 1, parent, ancestry, id)
            + Planned(inp, nodes[i - 1], Some(parent), ancestry, at)
  {
  }

  lemma MergedInsertable(a: Table, b: Table, all: Table, refuses: set<nat>)
    requires all == a + b && forall k | k in a :: k !in b
    ensures AllInsertable(all, refuses) <==> AllInsertable(a, refuses) && AllInsertable(b, refuses)
  {
    if AllInsertable(all, refuses) {
      forall k | k in a ensures Insertable(a[k], k, refuses) {
        assert Insertable(all[k], k, refuses);
      }
      forall k | k in b ensures Insertable(b[k], k, refuses) {
        assert Insertable(all[k], k, refuses);
      }
    } else {
      var k :| k in all && !Insertable(all[k], k, refuses);
      assert if k in b then !Insertable(b[k], k, refuses) else !Insertable(a[k], k, refuses);
    }
  }

  /** If `j` subtrees fit, so do the first `i` of them. */
  lemma {:induction false} FewerFit(inp: CreateTreeInput, nodes: seq<TreeNode>, i: nat, j: nat, parent: nat,
                                    ancestry: seq<AncestryNode>, id: nat, refuses: set<nat>)
    requires i <= j <= |nodes| && FirstFit(inp, nodes, j, parent, ancestry, id, refuses)
    ensures FirstFit(inp, nodes, i, parent, ancestry, id, refuses)
    decreases j
  {
    if i < j {
      FewerFit(inp, nodes, i, j - 1, parent, ancestry, id, refuses);
    }
  }

  lemma MergeTwice(t: Table, a: Table, b: Table)
    ensures (t + a) + b == t + (a + b)
  {
  }

  /** Where the walk over a node's children started. */
  datatype WalkStart = WalkStart(t: Table, id: nat, acc: seq<nat>)

  /** The first `i` subtrees fit and have been inserted. */
  ghost predicate Walked(was: WalkStart, t: Table, n: nat, ids: seq<nat>, inp: CreateTreeInput, nodes: seq<TreeNode>,
                         i: nat, parent: nat, ancestry: seq<AncestryNode>, refuses: set<nat>)
    requires i <= |nodes|
  {
    && FirstFit(inp, nodes, i, parent, ancestry, was.id, refuses)
    && t == was.t + PlannedFirst(inp, nodes, i, parent, ancestry, was.id)
    && n == was.id + SizeFirst(nodes, i)
    && ids == was.acc + Range(was.id, SizeFirst(nodes, i))
  }

  /** The whole subtree at `node` fits and has been inserted. */
  ghost predicate Placed(was: WalkStart, t: Table, n: nat, ids: seq<nat>, inp: CreateTreeInput, node: TreeNode,
                         parent: Option<nat>, ancestry: seq<AncestryNode>, refuses: set<nat>) {
    && Fits(inp, node, parent, ancestry, was.id, refuses)
    && t == was.t + Planned(inp, node, parent, ancestry, was.id)
    && n == was.id + Size(node)
    && ids == was.acc + Range(was.id, Size(node))
  }

  lemma WalkedOneMore(was: WalkStart, t: Table, n: nat, ids: seq<nat>, t': Table, n': nat, ids': seq<nat>,
                      inp: CreateTreeInput, nodes: seq<TreeNode>, i: nat, parent: nat, ancestry: seq<AncestryNode>,
                      refuses: set<nat>)
    requires i < |nodes| && Walked(was, t, n, ids, inp, nodes, i, parent, ancestry, refuses)
    requires Placed(WalkStart(t, n, ids), t', n', ids', inp, nodes[i], Some(parent), ancestry, refuses)
    ensures Walked(was, t', n', ids', inp, nodes, i + 1, parent, ancestry, refuses)
  {
    RangeJoin(was.acc, was.id, SizeFirst(nodes, i), Size(nodes[i]));
    MergeTwice(was.t, PlannedFirst(inp, nodes, i, parent, ancestry, was.id),
               Planned(inp, nodes[i], Some(parent), ancestry, n));
  }

  lemma PlacedNode(was: WalkStart, t: Table, n: nat, ids: seq<nat>, inp: CreateTreeInput, node: TreeNode,
                   parent: Option<nat>, ancestry: seq<AncestryNode>, refuses: set<nat>)
    requires Insertable(RowFor(inp, node, parent, ancestry), was.id, refuses)
    requires Walked(WalkStart(was.t[was.id := RowFor(inp, node, parent, ancestry)], was.id + 1, was.acc + [was.id]),
                    t, n, ids, inp, node.children, |node.children|, was.id, Extend(ancestry, was.id, node), refuses)
    ensures Placed(was, t, n, ids, inp, node, parent, ancestry, refuses)
  {
    WalkedNode(was.t, inp, node, parent, ancestry, was.id);
    RangeJoin(was.acc, was.id, 1, SizeFirst(node.children, |node.children|));
  }

  lemma NotAllFit(inp: CreateTreeInput, nodes: seq<TreeNode>, i: nat, parent: nat, ancestry: seq<AncestryNode>,
                  id: nat, refuses: set<nat>)
    requires i < |nodes| && !Fits(inp, nodes[i], Some(parent), ancestry, id + SizeFirst(nodes, i), refuses)
    ensures !FirstFit(inp, nodes, |nodes|, parent, ancestry, id, refuses)
  {
    if FirstFit(inp, nodes, |nodes|, parent, ancestry, id, refuses) {
      FewerFit(inp, nodes, i + 1, |nodes|, parent, ancestry, id, refuses);
    }
  }

  // ------------------------------------------------------- where a walk stops

  ghost predicate GoesIn(plan: Table, j: nat, refuses: set<nat>) {
    j in plan && Insertable(plan[j], j, refuses)
  }

  /** Row `k` is the first of the ids `lo..hi` to be refused. */
  ghost predicate StopsAt(plan: Table, lo: nat, hi: nat, k: nat, refuses: set<nat>) {
    && lo <= k < hi && k in plan && !GoesIn(plan, k, refuses)
    && forall j {:trigger GoesIn(plan, j, refuses)} | lo <= j < k :: GoesIn(plan, j, refuses)
  }

  /** The error of a call that fails: that of the first refused row, unless the transaction itself fails. */
  ghost predicate FailsWith(plan: Table, lo: nat, hi: nat, faults: Faults, error: TaskError) {
    if faults.begin then error == DatabaseError
    else if AllInsertable(plan, faults.refuses) then faults.commit && error == DatabaseError
    else exists k :: StopsAt(plan, lo, hi, k, faults.refuses) && error == Refused(plan[k])
  }

  lemma StopFails(plan: Table, lo: nat, hi: nat, k: nat, faults: Faults)
    requires StopsAt(plan, lo, hi, k, faults.refuses) && !faults.begin
    ensures FailsWith(plan, lo, hi, faults, Refused(plan[k]))
  {
    assert !Insertable(plan[k], k, faults.refuses);
  }

  /** There is at most one first refused row, so at most one error. */
  lemma StopsOnce(plan: Table, lo: nat, hi: nat, j: nat, k: nat, refuses: set<nat>)
    requires StopsAt(plan, lo, hi, j, refuses) && StopsAt(plan, lo, hi, k, refuses)
    ensures j == k
  {
    assert j < k ==> GoesIn(plan, j, refuses);
    assert k < j ==> GoesIn(plan, k, refuses);
  }

  function Upto(plan: Table, k: nat): Table {
    map j | j in plan && j < k :: plan[j]
  }

  /** A walk over the planned ids `lo..hi` has inserted the rows before `k` and failed at `k`. */
  ghost predicate Stopped(was: Table, t: Table, plan: Table, lo: nat, hi: nat, k: nat, error: TaskError,
                          refuses: set<nat>) {
    StopsAt(plan, lo, hi, k, refuses) && t == was + Upto(plan, k) && error == Refused(plan[k])
  }

  lemma StoppedAtRoot(t: Table, inp: CreateTreeInput, node: TreeNode, parent: Option<nat>,
                      ancestry: seq<AncestryNode>, id: nat, refuses: set<nat>)
    requires !Insertable(RowFor(inp, node, parent, ancestry), id, refuses)
    ensures Stopped(t, t, Planned(inp, node, parent, ancestry, id), id, id + Size(node), id,
                    Refused(RowFor(inp, node, parent, ancestry)), refuses)
  {
    var below, i := Extend(ancestry, id, node), |node.children|;
    PlannedFirstKeys(inp, node.children, i, id, below, id + 1);
    assert Upto(Planned(inp, node, parent, ancestry, id), id) == map[];
    assert t + map[] == t;
  }

  lemma StoppedBelow(was: Table, t: Table, inp: CreateTreeInput, node: TreeNode, parent: Option<nat>,
                     ancestry: seq<AncestryNode>, id: nat, k: nat, error: TaskError, refuses: set<nat>)
    requires Insertable(RowFor(inp, node, parent, ancestry), id, refuses)
    requires Stopped(was[id := RowFor(inp, node, parent, ancestry)], t,
                     PlannedFirst(inp, node.children, |node.children|, id, Extend(ancestry, id, node), id + 1),
                     id + 1, id + Size(node), k, error, refuses)
    ensures Stopped(was, t, Planned(inp, node, parent, ancestry, id), id, id + Size(node), k, error, refuses)
  {
    var row := RowFor(inp, node, parent, ancestry);
    var rest := PlannedFirst(inp, node.children, |node.children|, id, Extend(ancestry, id, node), id + 1);
    PlannedFirstKeys(inp, node.children, |node.children|, id, Extend(ancestry, id, node), id + 1);
    RootAndRest(was, map[id := row] + rest, rest, row, id, id + Size(node), k, error, t, refuses);
  }

  lemma RootAndRest(was: Table, plan: Table, rest: Table, row: Task, id: nat, hi: nat, k: nat, error: TaskError,
                    t: Table, refuses: set<nat>)
    requires plan == map[id := row] + rest && forall j | j in rest :: j > id
    requires Insertable(row, id, refuses) && Stopped(was[id := row], t, rest, id + 1, hi, k, error, refuses)
    ensures Stopped(was, t, plan, id, hi, k, error, refuses)
  {
    RootAndRestRows(was, rest, row, id, k);
    forall j {:trigger GoesIn(plan, j, refuses)} | id <= j <= k
      ensures GoesIn(plan, j, refuses) <==> j == id || GoesIn(rest, j, refuses) {
    }
  }

  lemma RootAndRestRows(was: Table, rest: Table, row: Task, id: nat, k: nat)
    requires id < k && id !in rest
    ensures was[id := row] + Upto(rest, k) == was + Upto(map[id := row] + rest, k)
  {
    assert Upto(map[id := row] + rest, k) == map[id := row] + Upto(rest, k);
  }

  /** The rows of the first subtrees are the first rows of all of them. */
  lemma {:induction false} FirstRows(inp: CreateTreeInput, nodes: seq<TreeNode>, i: nat, j: nat, parent: nat,
                                     ancestry: seq<AncestryNode>, id: nat, hi: nat)
    requires i <= j <= |nodes| && hi == id + SizeFirst(nodes, i)
    ensures Upto(PlannedFirst(inp, nodes, j, parent, ancestry, id), hi)
         == PlannedFirst(inp, nodes, i, parent, ancestry, id)
    ensures hi <= id + SizeFirst(nodes, j)
    decreases j
  {
    if i == j {
      PlannedFirstKeys(inp, nodes, i, parent, ancestry, id);
    } else {
      FirstRows(inp, nodes, i, j - 1, parent, ancestry, id, hi);
      PlannedKeys(inp, nodes[j - 1], Some(parent), ancestry, id + SizeFirst(nodes, j - 1));
    }
  }

  lemma StoppedAtChild(was: WalkStart, t: Table, t': Table, n: nat, ids: seq<nat>, inp: CreateTreeInput,
                       nodes: seq<TreeNode>, i: nat, parent: nat, ancestry: seq<AncestryNode>, k: nat,
                       error: TaskError, refuses: set<nat>)
    requires i < |nodes| && Walked(was, t, n, ids, inp, nodes, i, parent, ancestry, refuses)
    requires Stopped(t, t', Planned(inp, nodes[i], Some(parent), ancestry, n), n, n + Size(nodes[i]), k, error, refuses)
    ensures Stopped(was.t, t', PlannedFirst(inp, nodes, |nodes|, parent, ancestry, was.id), was.id,
                    was.id + SizeFirst(nodes, |nodes|), k, error, refuses)
  {
    StoppedAfter(was.t, t', inp, nodes, i, parent, ancestry, was.id, k, error, refuses);
  }

  lemma StoppedAfter(was: Table, t: Table, inp: CreateTreeInput, nodes: seq<TreeNode>, i: nat, parent: nat,
                     ancestry: seq<AncestryNode>, id: nat, k: nat, error: TaskError, refuses: set<nat>)
    requires i < |nodes| && FirstFit(inp, nodes, i, parent, ancestry, id, refuses)
    requires Stopped(was + PlannedFirst(inp, nodes, i, parent, ancestry, id), t,
                     Planned(inp, nodes[i], Some(parent), ancestry, id + SizeFirst(nodes, i)),
                     id + SizeFirst(nodes, i), id + SizeFirst(nodes, i) + Size(nodes[i]), k, error, refuses)
    ensures Stopped(was, t, PlannedFirst(inp, nodes, |nodes|, parent, ancestry, id), id,
                    id + SizeFirst(nodes, |nodes|), k, error, refuses)
  {
    ChildAmongAll(inp, nodes, i, parent, ancestry, id, refuses);
    FrontAndChild(was, t, PlannedFirst(inp, nodes, i, parent, ancestry, id),
                  Planned(inp, nodes[i], Some(parent), ancestry, id + SizeFirst(nodes, i)),
                  PlannedFirst(inp, nodes, |nodes|, parent, ancestry, id),
                  id, id + SizeFirst(nodes, i), id + SizeFirst(nodes, i) + Size(nodes[i]),
                  id + SizeFirst(nodes, |nodes|), k, error, refuses);
  }

  /** `all` begins with the rows of `front`, the ids `lo..mid` and none of them
      refused, followed by those of `child`, the ids `mid..hi`. */
  ghost predicate Begins(all: Table, front: Table, child: Table, lo: nat, mid: nat, hi: nat, refuses: set<nat>) {
    && Upto(all, hi) == front + child && lo <= mid
    && (forall j :: j in front <==> lo <= j < mid)
    && (forall j :: j in child <==> mid <= j < hi)
    && AllInsertable(front, refuses)
  }

  lemma ChildAmongAll(inp: CreateTreeInput, nodes: seq<TreeNode>, i: nat, parent: nat, ancestry: seq<AncestryNode>,
                      id: nat, refuses: set<nat>)
    requires i < |nodes| && FirstFit(inp, nodes, i, parent, ancestry, id, refuses)
    ensures Begins(PlannedFirst(inp, nodes, |nodes|, parent, ancestry, id),
                   PlannedFirst(inp, nodes, i, parent, ancestry, id),
                   Planned(inp, nodes[i], Some(parent), ancestry, id + SizeFirst(nodes, i)),
                   id, id + SizeFirst(nodes, i), id + SizeFirst(nodes, i) + Size(nodes[i]), refuses)
    ensures id + SizeFirst(nodes, i) + Size(nodes[i]) <= id + SizeFirst(nodes, |nodes|)
  {
    FirstFitIsInsertable(inp, nodes, i, parent, ancestry, id, refuses);
    PlannedFirstKeys(inp, nodes, i, parent, ancestry, id);
    PlannedKeys(inp, nodes[i], Some(parent), ancestry, id + SizeFirst(nodes, i));
    FrontThenChild(inp, nodes, i, parent, ancestry, id, id + SizeFirst(nodes, i) + Size(nodes[i]));
  }

  lemma FrontThenChild(inp: CreateTreeInput, nodes: seq<TreeNode>, i: nat, parent: nat, ancestry: seq<AncestryNode>, id: nat,
                       hi: nat)
    requires i < |nodes| && hi == id + SizeFirst(nodes, i) + Size(nodes[i])
    ensures hi <= id + SizeFirst(nodes, |nodes|)
    ensures Upto(PlannedFirst(inp, nodes, |nodes|, parent, ancestry, id), hi)
         == PlannedFirst(inp, nodes, i, parent, ancestry, id)
            + Planned(inp, nodes[i], Some(parent), ancestry, id + SizeFirst(nodes, i))
  {
    PlannedFirstNext(inp, nodes, i, parent, ancestry, id);
    FirstRows(inp, nodes, i + 1, |nodes|, parent, ancestry, id, hi);
  }

  lemma PlannedFirstNext(inp: CreateTreeInput, nodes: seq<TreeNode>, i: nat, parent: nat, ancestry: seq<AncestryNode>, id: nat)
    requires i < |nodes|
    ensures id + SizeFirst(nodes, i + 1) == id + SizeFirst(nodes, i) + Size(nodes[i])
    ensures PlannedFirst(inp, nodes, i + 1, parent, ancestry, id)
         == PlannedFirst(inp, nodes, i, parent, ancestry, id)
            + Planned(inp, nodes[i], Some(parent), ancestry, id + SizeFirst(nodes, i))
  {
  }

  lemma FrontAndChild(was: Table, t: Table, front: Table, child: Table, all: Table, lo: nat, mid: nat, hi: nat,
                      top: nat, k: nat, error: TaskError, refuses: set<nat>)
    requires Begins(all, front, child, lo, mid, hi, refuses) && hi <= top
    requires Stopped(was + front, t, child, mid, hi, k, error, refuses)
    ensures Stopped(was, t, all, lo, top, k, error, refuses)
  {
    FrontAndChildRows(front, child, all, mid, hi, k);
    MergeTwice(was, front, Upto(child, k));
    forall j: nat | lo <= j <= k ensures GoesIn(all, j, refuses) <==> j < mid || GoesIn(child, j, refuses) {
      FrontAndChildRow(front, child, all, hi, j);
      if j < mid {
        assert Insertable(front[j], j, refuses);
      }
    }
  }

  lemma FrontAndChildRow(front: Table, child: Table, all: Table, hi: nat, j: nat)
    requires Upto(all, hi) == front + child && j < hi
    ensures j in all <==> j in front || j in child
    ensures j in all ==> all[j] == if j in child then child[j] else front[j]
  {
    assert j in all <==> j in Upto(all, hi);
    assert j in Upto(all, hi) ==> Upto(all, hi)[j] == all[j];
  }

  lemma FrontAndChildRows(front: Table, child: Table, all: Table, mid: nat, hi: nat, k: nat)
    requires Upto(all, hi) == front + child && mid <= k < hi
    requires (forall j | j in front :: j < mid) && (forall j | j in child :: mid <= j < hi)
    ensures Upto(all, k) == front + Upto(child, k)
  {
    forall j: nat | j < k ensures (j in all <==> j in front + child) && (j in all ==> all[j] == (front + child)[j]) {
      FrontAndChildRow(front, child, all, hi, j);
    }
  }

  class Store {
    var rows: Table
    var nextId: nat

    ghost predicate Valid()
      reads this
    {
      Linked(rows) && Below(rows, nextId)
    }

    constructor ()
      ensures Valid() && rows == map[]
    {
      rows, nextId := map[], 1;
    }

    method Insert(task: Task, refuses: set<nat>) returns (r: Result<nat, TaskError>)
      modifies this
      ensures r.Ok? <==> Insertable(task, old(nextId), refuses)
      ensures r.Ok? <==> && Text.Utf8Bytes(AncestryText(task.ancestry)) <= 16384 && !task.status.Unknown?
                         && (task.byAgent != None || task.byUser != None) && old(nextId) !in refuses
      ensures r.Ok? ==> r.value == old(nextId) && rows == old(rows)[old(nextId) := task] && nextId == old(nextId) + 1
      ensures r.Err? ==> rows == old(rows) && nextId == old(nextId)
      ensures r.Err? ==> r.error == Refused(task)
    {
      AncestrySize(task.ancestry);
      if AncestryBytes(task.ancestry) > MAX_ANCESTRY_BYTES {
        return Err(AncestryOverflow);
      }
      if task.status.Unknown? || (task.byAgent.None? && task.byUser.None?) || nextId in refuses {
        return Err(DatabaseError);
      }
      var id := nextId;
      rows, nextId := rows[id := task], id + 1;
      return Ok(id);
    }

    /** The row for one node, with the default billing and status filled in. */
    method InsertNode(inp: CreateTreeInput, node: TreeNode, parent: Option<nat>, depth: nat,
                      ancestry: seq<AncestryNode>, refuses: set<nat>) returns (r: Result<nat, TaskError>)
      requires depth == |ancestry|
      modifies this
      ensures r.Ok? <==> Insertable(RowFor(inp, node, parent, ancestry), old(nextId), refuses)
      ensures r.Ok? ==> rows == old(rows)[old(nextId) := RowFor(inp, node, parent, ancestry)]
      ensures r.Ok? ==> r.value == old(nextId) && nextId == old(nextId) + 1
      ensures r.Err? ==> rows == old(rows) && nextId == old(nextId) && r.error == Refused(RowFor(inp, node, parent, ancestry))
    {
      var billing := if node.billing == "" then inp.defaultBilling else node.billing;
      var status := if inp.initialStatus.None? then Approved else inp.initialStatus.value;
      var task := Task(inp.goalId, parent, ancestry, depth, node.title, node.description, node.criteria,
                       inp.byAgent, inp.byUser, None, status, NullableString(billing),
                       node.budgetTokens, node.budgetCents, 0, 0, node.heartbeat, node.verifier,
                       None, None, None, None, None, None);
      r := Insert(task, refuses);
    }

    /** Inserts the subtree at `node` in preorder, up to the first row that is
        refused; the enclosing transaction undoes a failure. */
    method Walk(inp: CreateTreeInput, node: TreeNode, parent: Option<nat>, depth: nat,
                ancestry: seq<AncestryNode>, refuses: set<nat>, acc: seq<nat>)
      returns (r: Result<nat, TaskError>, allIds: seq<nat>)
      requires depth == |ancestry|
      modifies this
      ensures r.Ok? ==> r.value == old(nextId)
      ensures r.Ok? ==> Placed(WalkStart(old(rows), old(nextId), acc), rows, nextId, allIds,
                               inp, node, parent, ancestry, refuses)
      ensures r.Err? ==> !Fits(inp, node, parent, ancestry, old(nextId), refuses)
      ensures r.Err? ==> Stopped(old(rows), rows, Planned(inp, node, parent, ancestry, old(nextId)),
                                 old(nextId), old(nextId) + Size(node), nextId, r.error, refuses)
      decreases node, 1
    {
      allIds := acc;
      ghost var was := WalkStart(rows, nextId, acc);
      r := InsertNode(inp, node, parent, depth, ancestry, refuses);
      if r.Err? {
        StoppedAtRoot(was.t, inp, node, parent, ancestry, was.id, refuses);
        return;
      }
      var id := r.value;
      allIds := allIds + [id];
      var childAncestry := Extend(ancestry, id, node);
      var rest: Result<(), TaskError>;
      rest, allIds := WalkChildren(inp, node.children, id, depth + 1, childAncestry, refuses, allIds);
      if rest.Err? {
        StoppedBelow(was.t, rows, inp, node, parent, ancestry, id, nextId, rest.error, refuses);
        r := Err(rest.error);
        return;
      }
      PlacedNode(was, rows, nextId, allIds, inp, node, parent, ancestry, refuses);
    }

    /** The loop of Walk over a node's children. */
    method WalkChildren(inp: CreateTreeInput, nodes: seq<TreeNode>, parent: nat, depth: nat,
                        ancestry: seq<AncestryNode>, refuses: set<nat>, acc: seq<nat>)
      returns (r: Result<(), TaskError>, allIds: seq<nat>)
      requires depth == |ancestry|
      modifies this
      ensures r.Ok? ==> Walked(WalkStart(old(rows), old(nextId), acc), rows, nextId, allIds,
                               inp, nodes, |nodes|, parent, ancestry, refuses)
      ensures r.Err? ==> !FirstFit(inp, nodes, |nodes|, parent, ancestry, old(nextId), refuses)
      ensures r.Err? ==> Stopped(old(rows), rows, PlannedFirst(inp, nodes, |nodes|, parent, ancestry, old(nextId)),
                                 old(nextId), old(nextId) + SizeFirst(nodes, |nodes|), nextId, r.error, refuses)
      decreases nodes, 0
    {
      allIds := acc;
      ghost var was := WalkStart(rows, nextId, acc);
      assert Walked(was, rows, nextId, allIds, inp, nodes, 0, parent, ancestry, refuses);
      var i := 0;
      while i < |nodes|
        invariant 0 <= i <= |nodes|
        invariant Walked(was, rows, nextId, allIds, inp, nodes, i, parent, ancestry, refuses)
      {
        ghost var t, n, ids := rows, nextId, allIds;
        var child: Result<nat, TaskError>;
        child, allIds := Walk(inp, nodes[i], Some(parent), depth, ancestry, refuses, allIds);
        if child.Err? {
          NotAllFit(inp, nodes, i, parent, ancestry, was.id, refuses);
          StoppedAtChild(was, t, rows, n, ids, inp, nodes, i, parent, ancestry, nextId, child.error, refuses);
          return Err(child.error), allIds;
        }
        WalkedOneMore(was, t, n, ids, rows, nextId, allIds, inp, nodes, i, parent, ancestry, refuses);
        i := i + 1;
      }
      return Ok(()), allIds;
    }

    /** All or nothing: on success the table has grown by exactly the rows asked
        for, and the tree at the new root is the specification with the default
        billing filled in; on any failure nothing has changed, and the error is
        that of the first row, in preorder, to be refused. */
    method CreateTree(inp: CreateTreeInput, faults: Faults) returns (r: Result<Created, TaskError>)
      requires Valid()
      modifies this
      ensures Valid()
      ensures r.Ok? <==> !faults.begin && !faults.commit && AllInsertable(PlanAt(inp, old(nextId)), faults.refuses)
      ensures r.Err? ==> rows == old(rows) && nextId == old(nextId)
      ensures r.Err? ==> FailsWith(PlanAt(inp, old(nextId)), old(nextId), old(nextId) + Size(inp.root), faults, r.error)
      ensures r.Ok? ==>
                && rows == old(rows) + PlanAt(inp, old(nextId))
                && nextId == old(nextId) + Size(inp.root)
                && r.value.rootId == old(nextId)
                && r.value.allIds == Range(old(nextId), Size(inp.root))
      ensures r.Ok? ==>
                && r.value.rootId in rows
                && var tree := TableTree(rows, nextId, r.value.rootId);
                   && Agrees(inp, inp.root, tree)
                   && Preorder(tree) == r.value.allIds
    {
      if faults.begin {
        return Err(DatabaseError);
      }
      var savedRows, savedNext := rows, nextId;
      FlattenRebuild(rows, nextId, inp);
      FitsIsInsertable(inp, inp.root, None, [], nextId, faults.refuses);
      var root, allIds := Walk(inp, inp.root, None, 0, [], faults.refuses, []);
      if root.Err? {
        StopFails(PlanAt(inp, savedNext), savedNext, savedNext + Size(inp.root), nextId, faults);
        rows, nextId := savedRows, savedNext;
        return Err(root.error);
      }
      if faults.commit {
        rows, nextId := savedRows, savedNext;
        return Err(DatabaseError);
      }
      AskedPreorder(inp, inp.root, None, [], savedNext);
      return Ok(Created(root.value, allIds));
    }

    method ClaimAtomic(id: nat, agent: nat, message: Option<nat>, now: int) returns (r: Result<(), TaskError>)
      requires Valid()
      modifies `rows
      ensures Valid()
      ensures rows == AfterClaim(old(rows), id, agent, message, now)
      ensures r == if Claimable(old(rows), id) then Ok(()) else Err(AlreadyClaimed)
      ensures r.Ok? <==> id in old(rows) && old(rows)[id].assignee == None && old(rows)[id].status == Approved
      ensures r.Ok? ==> OnlyRow(old(rows), rows, id) && ClaimSet(old(rows)[id], rows[id], agent, message, now)
      ensures r.Err? ==> rows == old(rows)
    {
      var affected := 0;
      StatementsKeepShape(rows, id, agent, message, Proposed, Extras("", None), now, 0, 0);
      if id in rows && rows[id].assignee == None && rows[id].status == Approved {
        rows := rows[id := rows[id].(assignee := Some(agent), status := Claimed,
                                     claimedAt := Some(now), claimMessage := message)];
        affected := 1;
      }
      if affected == 0 {
        return Err(AlreadyClaimed);
      }
      return Ok(());
    }

    method TransitionStatus(id: nat, status: Status, extras: Extras, now: int) returns (r: Result<(), TaskError>)
      requires Valid()
      modifies `rows
      ensures Valid()
      ensures rows == AfterWrite(old(rows), id, status, extras, now)
      ensures r == if id in old(rows) && status.Unknown? then Err(DatabaseError) else Ok(())
      ensures r.Ok? && id in old(rows) ==>
                OnlyRow(old(rows), rows, id) && StatusSet(old(rows)[id], rows[id], status, extras, now)
      ensures r.Err? || id !in old(rows) ==> rows == old(rows)
    {
      StatementsKeepShape(rows, id, 0, None, status, extras, now, 0, 0);
      if id in rows {
        if status.Unknown? {
          return Err(DatabaseError);
        }
        StatementEffects(rows, id, 0, None, status, extras, now);
        var row := rows[id];
        rows := rows[id := row.(
          status := status,
          startedAt := if row.startedAt.Some? then row.startedAt else if status == InProgress then Some(now) else None,
          completedAt := if status in {Done, Failed, Cancelled} then Some(now) else row.completedAt,
          failureReason := if extras.failureReason != "" then Some(extras.failureReason) else row.failureReason,
          completionMessage := if extras.completionMessage.Some? then extras.completionMessage else row.completionMessage)];
      }
      return Ok(());
    }

    /** Read, check, write, with nothing in between: one serialized call. */
    method Transition(id: nat, status: Status, extras: Extras, now: int) returns (r: Result<(), TaskError>)
      requires Valid()
      modifies `rows
      ensures Valid()
      ensures System(rows, nextId, []) == CallStep(System(old(rows), nextId, []), CallTransition(id, status, extras, now))
      ensures r == if id !in old(rows) then Err(TaskNotFound)
                   else if LegalTransition(old(rows)[id].status, status) then Ok(())
                   else Err(IllegalTransition)
      ensures r.Ok? ==> OnlyRow(old(rows), rows, id) && StatusSet(old(rows)[id], rows[id], status, extras, now)
      ensures r.Err? ==> rows == old(rows)
    {
      if id !in rows {
        return Err(TaskNotFound);
      }
      if !LegalTransition(rows[id].status, status) {
        return Err(IllegalTransition);
      }
      r := TransitionStatus(id, status, extras, now);
    }

    method AddSpend(id: nat, tokens: int, cents: int)
      requires Valid()
      modifies `rows
      ensures Valid()
      ensures rows == AfterSpend(old(rows), id, tokens, cents)
      ensures id in old(rows) ==>
                && OnlyRow(old(rows), rows, id)
                && rows[id] == old(rows)[id].(spentTokens := old(rows)[id].spentTokens + tokens,
                                              spentCents := old(rows)[id].spentCents + cents)
      ensures forall r :: RollupOf(rows, nextId, r)
                       == if id in old(rows) && Under(old(rows), id, r)
                          then Plus(RollupOf(old(rows), nextId, r), Total(tokens, cents, 0))
                          else RollupOf(old(rows), nextId, r)
    {
      StatementsKeepShape(rows, id, 0, None, Proposed, Extras("", None), 0, tokens, cents);
      if id in rows {
        forall r {
          SpendReachesAncestors(rows, nextId, id, tokens, cents, r);
        }
        rows := rows[id := rows[id].(spentTokens := rows[id].spentTokens + tokens,
                                     spentCents := rows[id].spentCents + cents)];
      }
    }

    /** The recursive part of both rollup queries: a queue of rows whose children are still to be joined in. */
    method Subtree(root: nat) returns (subtree: seq<nat>)
      requires Valid()
      ensures Distinct(subtree)
      ensures forall k :: k in subtree <==> k in Descendants(rows, root)
    {
      var queue: seq<nat> := if root in rows then [root] else [];
      subtree := [];
      while queue != []
        invariant Distinct(subtree) && Distinct(queue)
        invariant Visiting(rows, root, Elements(subtree), Elements(queue))
        decreases rows.Keys - Elements(subtree)
      {
        var id := queue[0];
        var children := ChildIds(rows, id, nextId);
        VisitOne(rows, root, Elements(subtree), Elements(queue), id);
        Dequeue(rows, nextId, subtree, queue);
        queue := queue[1..] + children;
        subtree := subtree + [id];
      }
      VisitedAll(rows, root, Elements(subtree));
    }

    /** Every descendant is visited once; the totals are those of the three-way rollup. */
    method RollupCosts(root: nat) returns (tokens: int, cents: int, count: nat)
      requires Valid()
      ensures Total(tokens, cents, count) == RollupOf(rows, nextId, root)
      ensures Total(tokens, cents, count) == SumOver(rows, Listed(rows, root), nextId)
      ensures Total(tokens, cents, count)
           == if root in rows then TreeTotal(TableTree(rows, nextId, root)) else ZERO
      ensures count == |Descendants(rows, root)|
      ensures forall ids | Enumerates(ids, rows, Descendants(rows, root), nextId) ::
                tokens == TokensOf(rows, ids) && cents == CentsOf(rows, ids)
    {
      var subtree := Subtree(root);
      tokens, cents, count := 0, 0, 0;
      ghost var s := Descendants(rows, root);
      var id := 0;
      while id < nextId
        invariant id <= nextId
        invariant Total(tokens, cents, count) == SumOver(rows, s, id)
      {
        if id in rows && id in subtree {
          tokens, cents, count := tokens + rows[id].spentTokens, cents + rows[id].spentCents, count + 1;
        }
        id := id + 1;
      }
      RollupThreeWays(rows, nextId, root);
      RollupCounts(rows, nextId, root);
      forall ids | Enumerates(ids, rows, s, nextId) ensures tokens == TokensOf(rows, ids) && cents == CentsOf(rows, ids) {
        SumEnumerated(rows, s, nextId, ids);
      }
    }

    /** One map entry per billing code, none overwritten: the group of an entry is
        exactly the descendants with that code, and in any order the entries add
        up to the rollup of the same root. */
    method RollupByBillingCode(root: nat) returns (out: map<string, Total>)
      requires Valid()
      ensures forall code :: code in out <==> exists k :: k in Descendants(rows, root) && rows[k].billing == NullableString(code)
      ensures forall code | code in out ::
                out[code] == SumOver(rows, WithBilling(rows, Descendants(rows, root), NullableString(code)), nextId)
      ensures forall codes | Distinct(codes) && (forall c :: c in codes <==> c in out) ::
                SumEntries(out, codes) == RollupOf(rows, nextId, root)
    {
      var subtree := Subtree(root);
      var selected := set k | k in subtree;
      ghost var s := Descendants(rows, root);
      assert selected == s;
      var groups: set<Option<string>> := set k | k in rows && k in selected :: rows[k].billing;
      ghost var all := groups;
      out := map[];
      while groups != {}
        invariant groups <= all
        invariant forall code :: code in out <==> NullableString(code) in all - groups
        invariant forall code | code in out :: out[code] == SumOver(rows, WithBilling(rows, s, NullableString(code)), nextId)
      {
        var g :| g in groups;
        var k0 :| k0 in rows && k0 in selected && rows[k0].billing == g;
        assert RowLinked(rows, k0);
        groups := groups - {g};
        var sum := GroupTotal(rows, nextId, selected, g);
        var code := CodeOf(rows[k0]);
        assert NullableString(code) == g;
        out := out[code := sum];
      }
      forall codes | Distinct(codes) && (forall c :: c in codes <==> c in out)
        ensures SumEntries(out, codes) == RollupOf(rows, nextId, root)
      {
        forall k | k in s ensures CodeOf(rows[k]) in out && rows[k].billing == NullableString(CodeOf(rows[k])) {
          assert RowLinked(rows, k) && rows[k].billing in all;
        }
        EntriesConserve(rows, nextId, s, out, codes);
      }
    }
  }

  /** One group of GROUP BY billing_code over the selected rows. */
  method GroupTotal(t: Table, n: nat, selected: set<nat>, g: Option<string>) returns (sum: Total)
    ensures sum == SumOver(t, WithBilling(t, selected, g), n)
  {
    sum := ZERO;
    var id := 0;
    while id < n
      invariant id <= n
      invariant sum == SumOver(t, WithBilling(t, selected, g), id)
    {
      if id in t && id in selected && t[id].billing == g {
        sum := Plus(sum, RowTotal(t[id]));
      }
      id := id + 1;
    }
  }

  // ------------------------------------------------ proof steps of the methods

  lemma WalkedNode(t: Table, inp: CreateTreeInput, node: TreeNode, parent: Option<nat>,
                   ancestry: seq<AncestryNode>, id: nat)
    ensures t[id := RowFor(inp, node, parent, ancestry)]
            + PlannedFirst(inp, node.children, |node.children|, id, Extend(ancestry, id, node), id + 1)
         == t + Planned(inp, node, parent, ancestry, id)
  {
    var first := map[id := RowFor(inp, node, parent, ancestry)];
    assert t[id := first[id]] == t + first;
    MergeTwice(t, first, PlannedFirst(inp, node.children, |node.children|, id, Extend(ancestry, id, node), id + 1));
  }

  ghost function Elements(a: seq<nat>): set<nat> {
    set k | k in a
  }

  ghost function ChildrenOf(t: Table, id: nat): set<nat> {
    set k | k in t && t[k].parent == Some(id)
  }

  /** Nothing is both queued and visited; all of it is below the root; what is
      queued or visited is the root or a child of something visited; and every
      child of something visited is queued or visited. */
  ghost predicate Visiting(t: Table, root: nat, visited: set<nat>, queued: set<nat>)
    requires PointersDown(t)
  {
    && visited !! queued
    && visited + queued <= Descendants(t, root)
    && (root in t ==> root in visited + queued)
    && (forall k | k in visited + queued && k != root :: t[k].parent.Some? && t[k].parent.value in visited)
    && (forall k {:trigger ChildrenOf(t, k)} | k in visited :: ChildrenOf(t, k) <= visited + queued)
  }

  lemma VisitOne(t: Table, root: nat, visited: set<nat>, queued: set<nat>, id: nat)
    requires PointersDown(t) && Visiting(t, root, visited, queued) && id in queued
    ensures ChildrenOf(t, id) !! visited + queued
    ensures Visiting(t, root, visited + {id}, queued - {id} + ChildrenOf(t, id))
  {
    var all, children := visited + queued, ChildrenOf(t, id);
    forall k | k in children ensures k !in all && Under(t, k, root) {
      assert PointerDown(t, k);
      UnderAtLeast(t, id, root);
    }
    var all' := (visited + {id}) + (queued - {id} + children);
    assert all' == all + children;
    forall k | k in visited + {id} ensures ChildrenOf(t, k) <= all' {
    }
  }

  lemma VisitedAll(t: Table, root: nat, visited: set<nat>)
    requires PointersDown(t) && Visiting(t, root, visited, {})
    ensures visited == Descendants(t, root)
  {
    forall k | k in t && Under(t, k, root) ensures k in visited {
      UnderAtLeast(t, k, root);
      ClosedDownward(t, root, visited, k);
    }
  }

  lemma {:induction false} ClosedDownward(t: Table, root: nat, visited: set<nat>, k: nat)
    requires PointersDown(t) && k in t && Under(t, k, root) && root in visited
    requires forall j {:trigger ChildrenOf(t, j)} | j in visited :: ChildrenOf(t, j) <= visited
    ensures k in visited
    decreases k
  {
    if k != root {
      assert PointerDown(t, k);
      ClosedDownward(t, root, visited, t[k].parent.value);
      assert k in ChildrenOf(t, t[k].parent.value);
    }
  }

  /** Popping the front and appending its children, seen as sets. */
  lemma Dequeue(t: Table, n: nat, subtree: seq<nat>, queue: seq<nat>)
    requires Below(t, n) && queue != [] && Distinct(subtree) && Distinct(queue)
    requires Elements(subtree) !! Elements(queue)
    requires ChildrenOf(t, queue[0]) !! Elements(subtree) + Elements(queue)
    ensures var id, children := queue[0], ChildIds(t, queue[0], n);
            && Elements(subtree + [id]) == Elements(subtree) + {id}
            && Elements(queue[1..] + children) == Elements(queue) - {id} + ChildrenOf(t, id)
            && Distinct(subtree + [id]) && Distinct(queue[1..] + children)
  {
    var id, children := queue[0], ChildIds(t, queue[0], n);
    assert queue == [id] + queue[1..];
    assert id in Elements(queue);
    forall i | 0 <= i < |children| ensures children[i] in ChildrenOf(t, id) {
      assert children[i] in children;
    }
    assert forall i :: 0 <= i < |queue| ==> queue[i] in Elements(queue);
    forall k ensures k in Elements(queue[1..] + children) <==> k in Elements(queue) - {id} + ChildrenOf(t, id) {
      assert k in ChildrenOf(t, id) <==> k in children;
    }
    assert forall i :: 0 <= i < |subtree| ==> subtree[i] in Elements(subtree);
  }

  /** COALESCE(billing_code, ''). */
  function CodeOf(row: Task): string {
    if row.billing.None? then "" else row.billing.value
  }

  ghost function SumEntries(out: map<string, Total>, codes: seq<string>): Total
    requires forall c | c in codes :: c in out
  {
    if codes == [] then ZERO
    else Plus(SumEntries(out, codes[..|codes| - 1]), out[codes[|codes| - 1]])
  }

  ghost function Nulls(codes: seq<string>): (r: seq<Option<string>>)
    ensures |r| == |codes| && forall i :: 0 <= i < |r| ==> r[i] == NullableString(codes[i])
  {
    if codes == [] then [] else Nulls(codes[..|codes| - 1]) + [NullableString(codes[|codes| - 1])]
  }

  lemma {:induction false} EntriesAreGroups(t: Table, n: nat, s: set<nat>, out: map<string, Total>, codes: seq<string>)
    requires forall c | c in codes :: c in out
    requires forall c | c in out :: out[c] == SumOver(t, WithBilling(t, s, NullableString(c)), n)
    ensures SumEntries(out, codes) == SumCodes(t, s, Nulls(codes), n)
    decreases |codes|
  {
    if codes != [] {
      EntriesAreGroups(t, n, s, out, codes[..|codes| - 1]);
      var all := Nulls(codes);
      assert all[..|all| - 1] == Nulls(codes[..|codes| - 1]);
    }
  }

  lemma EntriesConserve(t: Table, n: nat, s: set<nat>, out: map<string, Total>, codes: seq<string>)
    requires Distinct(codes) && forall c :: c in codes <==> c in out
    requires forall c | c in out :: out[c] == SumOver(t, WithBilling(t, s, NullableString(c)), n)
    requires forall k | k in s :: k in t && CodeOf(t[k]) in out && t[k].billing == NullableString(CodeOf(t[k]))
    ensures SumEntries(out, codes) == SumOver(t, s, n)
  {
    var all := Nulls(codes);
    EntriesAreGroups(t, n, s, out, codes);
    NullsDistinct(codes);
    GroupsConserve(t, s, all, n);
    forall k | k in s ensures t[k].billing in all {
      NullsList(codes, CodeOf(t[k]));
    }
    assert WithAnyBilling(t, s, all) == s;
  }

  lemma NullsList(codes: seq<string>, c: string)
    requires c in codes
    ensures NullableString(c) in Nulls(codes)
  {
    var i :| 0 <= i < |codes| && codes[i] == c;
    assert Nulls(codes)[i] == NullableString(c);
  }

  lemma NullsDistinct(codes: seq<string>)
    requires Distinct(codes)
    ensures Distinct(Nulls(codes))
  {
  }
}
