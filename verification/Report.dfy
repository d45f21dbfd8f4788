/** The doc-gardener report: rebuilding a goal's tree from flat rows, and its totals. */
module Report {
  import opened Common
  import opened TaskTypes
  import opened TaskTable
  import opened TaskTree
  import opened Rollup
  import opened TaskStore

  /** A tree without an order among siblings; equal siblings would count twice. */
  datatype Loose = Loose(id: nat, task: Task, children: multiset<Loose>)

  function Unordered(tree: Tree): Loose
    decreases tree, 1
  {
    Loose(tree.id, tree.task, UnorderedAll(tree.children))
  }

  function UnorderedAll(trees: seq<Tree>): multiset<Loose>
    decreases trees, 0
  {
    if trees == [] then multiset{}
    else UnorderedAll(trees[..|trees| - 1]) + multiset{Unordered(trees[|trees| - 1])}
  }

  lemma UnorderedSnoc(trees: seq<Tree>, tree: Tree)
    ensures UnorderedAll(trees + [tree]) == UnorderedAll(trees) + multiset{Unordered(tree)}
  {
    assert (trees + [tree])[..|trees|] == trees;
  }

  lemma {:induction false} UnorderedConcat(a: seq<Tree>, b: seq<Tree>)
    ensures UnorderedAll(a + b) == UnorderedAll(a) + UnorderedAll(b)
    decreases |b|
  {
    if b == [] {
      assert a + b == a;
    } else {
      var b', x := b[..|b| - 1], b[|b| - 1];
      calc {
        UnorderedAll(a + b);
        { assert a + b == (a + b') + [x]; UnorderedSnoc(a + b', x); }
        UnorderedAll(a + b') + multiset{Unordered(x)};
        { UnorderedConcat(a, b'); }
        UnorderedAll(a) + UnorderedAll(b') + multiset{Unordered(x)};
        UnorderedAll(a) + (UnorderedAll(b') + multiset{Unordered(x)});
        UnorderedAll(a) + UnorderedAll(b);
      }
    }
  }

  lemma {:induction false} TreesIdsConcat(a: seq<Tree>, b: seq<Tree>)
    ensures TreesIds(a + b) == TreesIds(a) + TreesIds(b)
    decreases |b|
  {
    if b == [] {
      assert a + b == a;
    } else {
      var b', x := b[..|b| - 1], b[|b| - 1];
      calc {
        TreesIds(a + b);
        { assert a + b == (a + b') + [x]; TreesSnocTotals(a + b', x); }
        TreesIds(a + b') + TreeIds(x);
        { TreesIdsConcat(a, b'); }
        TreesIds(a) + TreesIds(b') + TreeIds(x);
        TreesIds(a) + (TreesIds(b') + TreeIds(x));
        TreesIds(a) + TreesIds(b);
      }
    }
  }

  lemma UnorderedWithout(c: seq<Tree>, y: Tree, d: seq<Tree>)
    ensures UnorderedAll((c + [y]) + d) == UnorderedAll(c + d) + multiset{Unordered(y)}
  {
    UnorderedConcat(c + [y], d);
    UnorderedSnoc(c, y);
    UnorderedConcat(c, d);
  }

  lemma TreesIdsWithout(c: seq<Tree>, y: Tree, d: seq<Tree>)
    ensures TreesIds((c + [y]) + d) == TreesIds(c + d) + TreeIds(y)
  {
    TreesIdsConcat(c + [y], d);
    TreesSnocTotals(c, y);
    TreesIdsConcat(c, d);
  }

  ghost predicate DistinctIds(trees: seq<Tree>) {
    forall i, j | 0 <= i < j < |trees| :: trees[i].id != trees[j].id
  }

  /** Both hold siblings of the same ids. */
  ghost predicate SameIds(a: seq<Tree>, b: seq<Tree>) {
    forall k {:trigger HasId(a, k)} {:trigger HasId(b, k)} :: HasId(a, k) <==> HasId(b, k)
  }

  ghost predicate HasId(trees: seq<Tree>, k: nat) {
    exists i :: 0 <= i < |trees| && trees[i].id == k
  }

  /** `tree` agrees with the pointers of `t`, siblings in any order: every node
      carries its row and has each child row exactly once. */
  ghost predicate ReadsLoosely(t: Table, tree: Tree)
    decreases tree
  {
    && tree.id in t && tree.task == t[tree.id]
    && DistinctIds(tree.children)
    && (forall k {:trigger HasId(tree.children, k)} :: HasId(tree.children, k) <==> k in t && t[k].parent == Some(tree.id))
    && (forall i | 0 <= i < |tree.children| :: ReadsLoosely(t, tree.children[i]))
  }

  /** Such trees for the same row differ in nothing but the order of siblings. */
  lemma {:induction false} LooselySame(t: Table, a: Tree, b: Tree)
    requires ReadsLoosely(t, a) && ReadsLoosely(t, b) && a.id == b.id
    ensures Unordered(a) == Unordered(b) && TreeIds(a) == TreeIds(b)
    decreases a, 1
  {
    forall k ensures HasId(a.children, k) <==> HasId(b.children, k) {
    }
    LooselySameAll(t, a.children, b.children);
  }

  lemma {:induction false} LooselySameAll(t: Table, a: seq<Tree>, b: seq<Tree>)
    requires DistinctIds(a) && DistinctIds(b)
    requires SameIds(a, b)
    requires forall i | 0 <= i < |a| :: ReadsLoosely(t, a[i])
    requires forall i | 0 <= i < |b| :: ReadsLoosely(t, b[i])
    ensures UnorderedAll(a) == UnorderedAll(b) && TreesIds(a) == TreesIds(b)
    decreases a, 0
  {
    if a == [] {
      if b != [] {
        assert HasId(b, b[0].id);
      }
    } else {
      var m := |a| - 1;
      assert HasId(a, a[m].id);
      var j :| 0 <= j < |b| && b[j].id == a[m].id;
      var c, d := b[..j], b[j + 1..];
      assert b == (c + [b[j]]) + d;
      WithoutOne(a, b, j);
      LooselySame(t, a[m], b[j]);
      LooselySameAll(t, a[..m], c + d);
      UnorderedWithout(c, b[j], d);
      TreesIdsWithout(c, b[j], d);
    }
  }

  lemma WithoutOne(a: seq<Tree>, b: seq<Tree>, j: nat)
    requires DistinctIds(a) && DistinctIds(b) && a != [] && j < |b|
    requires SameIds(a, b)
    requires a[|a| - 1].id == b[j].id
    ensures DistinctIds(a[..|a| - 1]) && DistinctIds(b[..j] + b[j + 1..])
    ensures SameIds(a[..|a| - 1], b[..j] + b[j + 1..])
  {
    var m, rest := |a| - 1, b[..j] + b[j + 1..];
    forall i | 0 <= i < |rest| ensures rest[i] == b[if i < j then i else i + 1] {
    }
    forall k ensures HasId(a[..m], k) <==> HasId(rest, k) {
      if HasId(a[..m], k) {
        var i :| 0 <= i < m && a[i].id == k;
        assert HasId(a, k);
        var l :| 0 <= l < |b| && b[l].id == k;
        assert l != j;
        assert rest[if l < j then l else l - 1] == b[l];
      }
      if HasId(rest, k) {
        var l :| 0 <= l < |rest| && rest[l].id == k;
        assert HasId(b, k);
        var i :| 0 <= i < |a| && a[i].id == k;
        assert i != m;
        assert a[..m][i] == a[i];
      }
    }
  }

  /** The tree in id order is one of them. */
  lemma {:induction false} TableTreeReads(t: Table, n: nat, tree: Tree)
    requires Below(t, n) && ReadsAs(t, n, tree)
    ensures ReadsLoosely(t, tree)
    decreases tree
  {
    var ids := ChildIds(t, tree.id, n);
    forall i | 0 <= i < |tree.children| ensures ReadsLoosely(t, tree.children[i]) {
      TableTreeReads(t, n, tree.children[i]);
    }
    forall k ensures HasId(tree.children, k) <==> k in ids {
      if k in ids {
        var i :| 0 <= i < |ids| && ids[i] == k;
        assert tree.children[i].id == k;
      }
    }
    forall k ensures HasId(tree.children, k) <==> k in t && t[k].parent == Some(tree.id) {
      assert HasId(tree.children, k) <==> k in ids;
    }
  }

  /** The rebuilt tree of a row has each descendant once and is the row's tree up to sibling order. */
  lemma LooseIsTableTree(t: Table, n: nat, tree: Tree)
    requires PointersDown(t) && Below(t, n) && ReadsLoosely(t, tree)
    ensures Unordered(tree) == Unordered(TableTree(t, n, tree.id))
    ensures TreeIds(tree) == multiset(Descendants(t, tree.id))
  {
    TableTreeReadsAs(t, n, tree.id);
    TableTreeReads(t, n, TableTree(t, n, tree.id));
    LooselySame(t, tree, TableTree(t, n, tree.id));
    TreeCovers(t, n, tree.id);
  }

  // ------------------------------------------------- flatten, then rebuild

  function Grown(t: Table, n: nat, inp: CreateTreeInput): Table {
    t + Planned(inp, inp.root, None, [], n)
  }

  lemma {:induction false} PlannedUnderRoot(t: Table, n: nat, inp: CreateTreeInput, k: nat)
    requires Linked(t) && Below(t, n) && Linked(Grown(t, n, inp)) && n <= k < n + Size(inp.root)
    ensures k in Grown(t, n, inp) && Under(Grown(t, n, inp), k, n)
    ensures k == n <==> Grown(t, n, inp)[k].parent.None?
    decreases k
  {
    PlannedKeys(inp, inp.root, None, [], n);
    PlannedParents(inp, inp.root, None, [], n);
    var u := Grown(t, n, inp);
    assert PointerDown(u, k);
    if k != n {
      PlannedUnderRoot(t, n, inp, u[k].parent.value);
    }
  }

  lemma GrownDescendants(t: Table, n: nat, inp: CreateTreeInput)
    requires Linked(t) && Below(t, n) && Linked(Grown(t, n, inp))
    ensures Descendants(Grown(t, n, inp), n) == Elements(Range(n, Size(inp.root)))
  {
    var u := Grown(t, n, inp);
    PlannedKeys(inp, inp.root, None, [], n);
    forall k | k in u && Under(u, k, n) ensures n <= k < n + Size(inp.root) {
      UnderAtLeast(u, k, n);
    }
    var ids := Range(n, Size(inp.root));
    forall k | n <= k < n + Size(inp.root) ensures k in u && Under(u, k, n) && k in Elements(ids) {
      PlannedUnderRoot(t, n, inp, k);
      assert ids[k - n] == k;
    }
  }

  lemma NewestRoot(t: Table, n: nat, inp: CreateTreeInput, r: nat)
    requires Linked(t) && Below(t, n) && Linked(Grown(t, n, inp))
    requires r in RootsOf(Grown(t, n, inp), inp.goalId)
    requires forall q | q in RootsOf(Grown(t, n, inp), inp.goalId) :: q <= r
    ensures r == n
  {
    PlannedKeys(inp, inp.root, None, [], n);
    PlannedParents(inp, inp.root, None, [], n);
    PlannedLinked(inp, inp.root, None, [], n);
    assert PlannedRow(Planned(inp, inp.root, None, [], n), n, inp.goalId, None, []);
    assert n in RootsOf(Grown(t, n, inp), inp.goalId);
    PlannedUnderRoot(t, n, inp, r);
  }

  /** The whole round trip: after a tree has been created in any table, every
      tree that agrees with the pointers at the goal's newest root, siblings in
      whatever order they were met, is the tree that was asked for up to that
      order, with each new row exactly once. */
  lemma RebuildRoundTrip(t: Table, n: nat, inp: CreateTreeInput, tree: Tree)
    requires Linked(t) && Below(t, n)
    requires ReadsLoosely(Grown(t, n, inp), tree)
    requires tree.id in RootsOf(Grown(t, n, inp), inp.goalId)
    requires forall q | q in RootsOf(Grown(t, n, inp), inp.goalId) :: q <= tree.id
    ensures tree.id == n
    ensures Unordered(tree) == Unordered(Asked(inp, inp.root, None, [], n))
    ensures TreeIds(tree) == multiset(Elements(Range(n, Size(inp.root))))
  {
    var u, m := Grown(t, n, inp), n + Size(inp.root);
    GrownTree(t, n, inp, u, m);
    NewestRoot(t, n, inp, tree.id);
    GrownDescendants(t, n, inp);
    RebuiltAt(u, m, tree, Asked(inp, inp.root, None, [], n));
  }

  lemma GrownTree(t: Table, n: nat, inp: CreateTreeInput, u: Table, m: nat)
    requires Linked(t) && Below(t, n) && u == Grown(t, n, inp) && m == n + Size(inp.root)
    ensures Linked(u) && Below(u, m) && n in u && n < m && TableTree(u, m, n) == Asked(inp, inp.root, None, [], n)
  {
    FlattenRebuild(t, n, inp);
  }

  lemma RebuiltAt(u: Table, m: nat, tree: Tree, asked: Tree)
    requires PointersDown(u) && Below(u, m) && ReadsLoosely(u, tree)
    requires TableTree(u, m, tree.id) == asked
    ensures Unordered(tree) == Unordered(asked)
    ensures TreeIds(tree) == multiset(Descendants(u, tree.id))
  {
    LooseIsTableTree(u, m, tree);
  }

  /** What the report shows of one goal. `total.count` is not printed. */
  datatype Snapshot = Snapshot(tree: seq<Tree>, total: Total, billing: seq<(string, Total)>)

  /** The flat rows by id; their children are whatever an earlier pass left there. */
  ghost predicate FlatOf(t: Table, goalId: nat, flat: map<nat, Tree>) {
    && (forall k {:trigger k in flat} :: k in flat <==> k in t && t[k].goalId == goalId)
    && (forall k {:trigger flat[k]} | k in flat :: flat[k].id == k && flat[k].task == t[k])
  }

  /** Starts over from no children and meets the flat rows in any order; the
      recursion ends because a child's id is larger than its parent's. */
  method Resolve(flat: map<nat, Tree>, tv: Tree, ghost t: Table, ghost n: nat) returns (out: Tree)
    requires Linked(t) && Below(t, n) && tv.id in t && tv.task == t[tv.id]
    requires FlatOf(t, tv.task.goalId, flat)
    ensures out.id == tv.id && ReadsLoosely(t, out)
    decreases n - tv.id
  {
    out := tv.(children := []);
    var todo := flat.Keys;
    while todo != {}
      invariant todo <= flat.Keys
      invariant out.id == tv.id && out.task == tv.task && DistinctIds(out.children)
      invariant forall i | 0 <= i < |out.children| :: ReadsLoosely(t, out.children[i])
      invariant forall k {:trigger HasId(out.children, k)} ::
                  HasId(out.children, k) <==> k in flat && k !in todo && t[k].parent == Some(tv.id)
    {
      var k :| k in todo;
      assert k in flat && flat[k].task == t[k] && PointerDown(t, k);
      assert !HasId(out.children, k);
      todo := todo - {k};
      if flat[k].task.parent == Some(tv.id) {
        var child := Resolve(flat, flat[k], t, n);
        HasIdSnoc(out.children, child);
        out := out.(children := out.children + [child]);
      }
    }
    forall k ensures HasId(out.children, k) <==> k in t && t[k].parent == Some(tv.id) {
      if k in t && t[k].parent == Some(tv.id) {
        assert PointerDown(t, k) && k in flat;
      }
    }
  }

  lemma HasIdSnoc(trees: seq<Tree>, tree: Tree)
    ensures forall k :: HasId(trees + [tree], k) <==> HasId(trees, k) || k == tree.id
    ensures DistinctIds(trees) && !HasId(trees, tree.id) ==> DistinctIds(trees + [tree])
  {
    var more := trees + [tree];
    forall k ensures HasId(more, k) <==> HasId(trees, k) || k == tree.id {
      assert more[|trees|] == tree;
      if HasId(trees, k) {
        var i :| 0 <= i < |trees| && trees[i].id == k;
        assert more[i].id == k;
      }
    }
  }

  /** The whole snapshot of a goal: its totals over every row of the goal, one
      billing row per code, and the tree of the root inserted last. */
  method BuildSnapshot(t: Table, n: nat, goalId: nat) returns (snap: Snapshot)
    requires Linked(t) && Below(t, n)
    ensures snap.total == SumOver(t, OfGoal(t, goalId), n)
    ensures snap.tree == [] <==> OfGoal(t, goalId) == {}
    ensures snap.tree != [] ==>
              && |snap.tree| == 1
              && var r := snap.tree[0].id;
                 && r in RootsOf(t, goalId) && (forall q | q in RootsOf(t, goalId) :: q <= r)
                 && Unordered(snap.tree[0]) == Unordered(TableTree(t, n, r))
                 && TreeIds(snap.tree[0]) == multiset(Descendants(t, r))
    ensures Distinct(Codes(snap.billing)) && Ascending(snap.billing)
    ensures forall code :: code in Codes(snap.billing) <==> exists k :: k in OfGoal(t, goalId) && CodeOf(t[k]) == code
    ensures forall i | 0 <= i < |snap.billing| ::
              snap.billing[i].1 == SumOver(t, WithBilling(t, OfGoal(t, goalId), NullableString(snap.billing[i].0)), n)
    ensures SumRows(snap.billing) == snap.total
  {
    var flat, rootId, total := LoadRows(t, n, goalId);
    flat := AppendChildren(flat, t, goalId);
    ghost var goal := OfGoal(t, goalId);
    forall k | k in goal ensures rootId in RootsOf(t, goalId) {
      var r := UnderOneRoot(t, k);
      assert r < n && r in RootsOf(t, goalId);
    }
    var tree: seq<Tree> := [];
    if rootId in flat {
      assert rootId in goal;
      var root := Resolve(flat, flat[rootId], t, n);
      LooseIsTableTree(t, n, root);
      tree := [root];
    }
    var billing := BillingRows(t, n, goalId);
    snap := Snapshot(tree, total, billing);
  }

  /** The rows of a goal by increasing id, keyed by id; the last root met wins. */
  method LoadRows(t: Table, n: nat, goalId: nat) returns (flat: map<nat, Tree>, rootId: nat, total: Total)
    requires Linked(t) && Below(t, n)
    ensures total == SumOver(t, OfGoal(t, goalId), n)
    ensures FlatOf(t, goalId, flat)
    ensures if RootsOf(t, goalId) == {} then rootId == 0
            else rootId in RootsOf(t, goalId) && forall q | q in RootsOf(t, goalId) :: q <= rootId
  {
    flat, rootId, total := map[], 0, ZERO;
    var id := 0;
    ghost var goal, roots := OfGoal(t, goalId), RootsOf(t, goalId);
    ghost var met: set<nat> := {};
    while id < n
      invariant id <= n
      invariant total == SumOver(t, goal, id)
      invariant forall k {:trigger k in flat} :: k in flat <==> k < id && k in goal
      invariant forall k {:trigger flat[k]} | k in flat :: flat[k].id == k && flat[k].task == t[k]
      invariant forall k {:trigger k in met} :: k in met <==> k in roots && k < id
      invariant if met == {} then rootId == 0 else rootId in met && forall q | q in met :: q <= rootId
    {
      if id in t && t[id].goalId == goalId {
        if t[id].parent.None? {
          rootId := id;
          met := met + {id};
        }
        total := Plus(total, RowTotal(t[id]));
        flat := flat[id := Tree(id, t[id], [])];
      }
      id := id + 1;
    }
    assert met == roots;
  }

  /** First pass: children appended to their parents in any order, by value. */
  method AppendChildren(rows: map<nat, Tree>, ghost t: Table, ghost goalId: nat) returns (flat: map<nat, Tree>)
    requires FlatOf(t, goalId, rows)
    ensures FlatOf(t, goalId, flat)
  {
    flat := rows;
    var todo := flat.Keys;
    while todo != {}
      invariant todo <= flat.Keys
      invariant FlatOf(t, goalId, flat)
    {
      var k :| k in todo;
      todo := todo - {k};
      var parent := flat[k].task.parent;
      if parent.Some? && parent.value in flat {
        var p := flat[parent.value];
        flat := flat[parent.value := p.(children := p.children + [flat[k]])];
      }
    }
  }

  function CodesOf(rows: seq<(string, Total)>, i: nat): seq<string>
    requires i <= |rows|
  {
    if i == 0 then [] else CodesOf(rows, i - 1) + [rows[i - 1].0]
  }

  function Codes(rows: seq<(string, Total)>): seq<string> {
    CodesOf(rows, |rows|)
  }

  function SumRows(rows: seq<(string, Total)>): Total {
    if rows == [] then ZERO else Plus(SumRows(rows[..|rows| - 1]), rows[|rows| - 1].1)
  }

  lemma {:induction false} CodesAt(rows: seq<(string, Total)>, i: nat)
    requires i <= |rows|
    ensures |CodesOf(rows, i)| == i && forall j :: 0 <= j < i ==> CodesOf(rows, i)[j] == rows[j].0
    decreases i
  {
    if i > 0 {
      CodesAt(rows, i - 1);
    }
  }

  // ------------------------------------------------- the order of the billing rows

  /** Text order, character by character. */
  predicate AtMost(a: string, b: string) {
    a == "" || (b != "" && (a[0] < b[0] || (a[0] == b[0] && AtMost(a[1..], b[1..]))))
  }

  lemma {:induction false} AtMostTotal(a: string, b: string)
    ensures AtMost(a, b) || AtMost(b, a)
    decreases |a|
  {
    if a != "" && b != "" && a[0] == b[0] {
      AtMostTotal(a[1..], b[1..]);
    }
  }

  lemma {:induction false} AtMostTransitive(a: string, b: string, c: string)
    requires AtMost(a, b) && AtMost(b, c)
    ensures AtMost(a, c)
    decreases |a|
  {
    if a != "" && a[0] == b[0] == c[0] {
      AtMostTransitive(a[1..], b[1..], c[1..]);
    }
  }

  /** A text comes before another if it is a prefix of it, or smaller at the first character that differs. */
  lemma {:induction false} AtMostExactly(a: string, b: string)
    ensures AtMost(a, b) <==> a <= b || exists i :: SmallerAt(a, b, i)
    decreases |a|
  {
    if a != "" && b != "" {
      if a[0] == b[0] {
        AtMostExactly(a[1..], b[1..]);
        assert a[1..] <= b[1..] <==> a <= b;
        forall i | SmallerAt(a[1..], b[1..], i) ensures SmallerAt(a, b, i + 1) {
          assert a[..i + 1] == [a[0]] + a[1..][..i] && b[..i + 1] == [b[0]] + b[1..][..i];
        }
        forall i | SmallerAt(a, b, i) ensures i > 0 && SmallerAt(a[1..], b[1..], i - 1) {
          assert a[1..][..i - 1] == a[..i][1..] && b[1..][..i - 1] == b[..i][1..];
        }
      } else {
        assert a[0] < b[0] ==> SmallerAt(a, b, 0);
        assert forall i | 0 < i <= |a| && i <= |b| :: a[..i][0] == a[0] && b[..i][0] == b[0];
      }
    }
  }

  ghost predicate SmallerAt(a: string, b: string, i: int) {
    0 <= i < |a| && i < |b| && a[..i] == b[..i] && a[i] < b[i]
  }

  /** NULL comes first; no stored code is empty. */
  function CodeText(g: Option<string>): string {
    if g.Some? then g.value else ""
  }

  method LeastCode(groups: set<Option<string>>) returns (least: Option<string>)
    requires groups != {}
    ensures least in groups && forall g | g in groups :: AtMost(CodeText(least), CodeText(g))
  {
    least :| least in groups;
    AtMostTotal(CodeText(least), CodeText(least));
    var todo := groups - {least};
    while todo != {}
      invariant todo <= groups && least in groups - todo
      invariant forall g | g in groups - todo :: AtMost(CodeText(least), CodeText(g))
    {
      var g :| g in todo;
      AtMostTotal(CodeText(least), CodeText(g));
      if !AtMost(CodeText(least), CodeText(g)) {
        forall h | h in groups - todo ensures AtMost(CodeText(g), CodeText(h)) {
          AtMostTransitive(CodeText(g), CodeText(least), CodeText(h));
        }
        AtMostTotal(CodeText(g), CodeText(g));
        least := g;
      }
      todo := todo - {g};
    }
  }

  ghost predicate Ascending(rows: seq<(string, Total)>) {
    forall i, j | 0 <= i < j < |rows| :: AtMost(rows[i].0, rows[j].0)
  }

  /** Row by row, the code and total of the group. */
  ghost predicate RowsOf(t: Table, n: nat, s: set<nat>, done: seq<Option<string>>, rows: seq<(string, Total)>) {
    |done| == |rows|
    && forall i | 0 <= i < |rows| ::
         done[i] == NullableString(rows[i].0) && rows[i].1 == SumOver(t, WithBilling(t, s, done[i]), n)
  }

  ghost predicate AllBefore(rows: seq<(string, Total)>, groups: set<Option<string>>) {
    forall i, g | 0 <= i < |rows| && g in groups :: AtMost(rows[i].0, CodeText(g))
  }

  ghost predicate InTurn(done: seq<Option<string>>, listed: set<Option<string>>) {
    Distinct(done) && forall g {:trigger g in done} :: g in done <==> g in listed
  }

  /** The groups `done` have been turned into rows; all others come later. */
  ghost predicate Grouped(t: Table, n: nat, s: set<nat>, all: set<Option<string>>, groups: set<Option<string>>,
                          done: seq<Option<string>>, rows: seq<(string, Total)>) {
    && groups <= all && InTurn(done, all - groups)
    && RowsOf(t, n, s, done, rows) && SumRows(rows) == SumCodes(t, s, done, n)
    && Ascending(rows) && AllBefore(rows, groups)
  }

  lemma ListsNext(done: seq<Option<string>>, listed: set<Option<string>>, g: Option<string>)
    requires InTurn(done, listed) && g !in listed
    ensures InTurn(done + [g], listed + {g})
  {
    assert g !in done;
  }

  lemma AscendingNext(rows: seq<(string, Total)>, groups: set<Option<string>>, g: Option<string>, sum: Total)
    requires Ascending(rows) && AllBefore(rows, groups) && g in groups
    requires forall h | h in groups :: AtMost(CodeText(g), CodeText(h))
    ensures Ascending(rows + [(CodeText(g), sum)]) && AllBefore(rows + [(CodeText(g), sum)], groups - {g})
  {
  }

  lemma SumsNext(t: Table, n: nat, s: set<nat>, done: seq<Option<string>>, rows: seq<(string, Total)>, g: Option<string>,
                 code: string)
    requires RowsOf(t, n, s, done, rows) && SumRows(rows) == SumCodes(t, s, done, n) && g == NullableString(code)
    ensures var row := (code, SumOver(t, WithBilling(t, s, g), n));
            RowsOf(t, n, s, done + [g], rows + [row]) && SumRows(rows + [row]) == SumCodes(t, s, done + [g], n)
  {
    var row := (code, SumOver(t, WithBilling(t, s, g), n));
    assert (rows + [row])[..|rows|] == rows && (done + [g])[..|done|] == done;
  }

  lemma GroupedNext(t: Table, n: nat, s: set<nat>, all: set<Option<string>>, groups: set<Option<string>>,
                    done: seq<Option<string>>, rows: seq<(string, Total)>, g: Option<string>)
    requires Grouped(t, n, s, all, groups, done, rows) && g in groups && g != Some("")
    requires forall h | h in groups :: AtMost(CodeText(g), CodeText(h))
    ensures Grouped(t, n, s, all, groups - {g}, done + [g],
                    rows + [(CodeText(g), SumOver(t, WithBilling(t, s, g), n))])
  {
    ListsNext(done, all - groups, g);
    assert all - (groups - {g}) == all - groups + {g};
    SumsNext(t, n, s, done, rows, g, CodeText(g));
    AscendingNext(rows, groups, g, SumOver(t, WithBilling(t, s, g), n));
  }

  /** GROUP BY billing_code over the rows of one goal, in the order of the codes. */
  method BillingRows(t: Table, n: nat, goalId: nat) returns (rows: seq<(string, Total)>)
    requires Linked(t) && Below(t, n)
    ensures Distinct(Codes(rows)) && Ascending(rows)
    ensures forall code :: code in Codes(rows) <==> exists k :: k in OfGoal(t, goalId) && CodeOf(t[k]) == code
    ensures forall i | 0 <= i < |rows| ::
              rows[i].1 == SumOver(t, WithBilling(t, OfGoal(t, goalId), NullableString(rows[i].0)), n)
    ensures SumRows(rows) == SumOver(t, OfGoal(t, goalId), n)
  {
    var s := set k | k in t && t[k].goalId == goalId;
    assert s == OfGoal(t, goalId);
    var groups: set<Option<string>> := set k | k in s :: t[k].billing;
    ghost var all := groups;
    ghost var done: seq<Option<string>> := [];
    rows := [];
    forall k | k in s ensures NullableString(CodeOf(t[k])) == t[k].billing && t[k].billing in all {
      assert RowLinked(t, k);
    }
    while groups != {}
      invariant Grouped(t, n, s, all, groups, done, rows)
    {
      var g := LeastCode(groups);
      var sum := GroupTotal(t, n, s, g);
      GroupedNext(t, n, s, all, groups, done, rows, g);
      groups, rows, done := groups - {g}, rows + [(CodeText(g), sum)], done + [g];
    }
    GroupsConserve(t, s, done, n);
    assert WithAnyBilling(t, s, done) == s;
    CodesMatch(t, s, rows, done);
  }

  lemma CodesMatch(t: Table, s: set<nat>, rows: seq<(string, Total)>, done: seq<Option<string>>)
    requires |done| == |rows| && forall i | 0 <= i < |rows| :: done[i] == NullableString(rows[i].0)
    requires Distinct(done)
    requires forall k | k in s :: k in t && t[k].billing in done && t[k].billing == NullableString(CodeOf(t[k]))
    requires forall g | g in done :: exists k :: k in s && t[k].billing == g
    ensures Distinct(Codes(rows))
    ensures forall code :: code in Codes(rows) <==> exists k :: k in s && CodeOf(t[k]) == code
  {
    CodesAt(rows, |rows|);
    forall code ensures code in Codes(rows) <==> exists k :: k in s && CodeOf(t[k]) == code {
      if code in Codes(rows) {
        var i :| 0 <= i < |rows| && Codes(rows)[i] == code;
        assert done[i] in done;
        var k :| k in s && t[k].billing == done[i];
        assert CodeOf(t[k]) == code;
      }
      if exists k :: k in s && CodeOf(t[k]) == code {
        var k :| k in s && CodeOf(t[k]) == code;
        assert t[k].billing in done;
        var i :| 0 <= i < |done| && done[i] == t[k].billing;
        assert Codes(rows)[i] == code;
      }
    }
  }

  /** A goal created by one CreateTree call: report total, billing rows and the
      tree agree with the rollup of its root. */
  lemma SingleTreeGoal(t: Table, n: nat, goalId: nat, r: nat)
    requires Linked(t) && Below(t, n) && RootsOf(t, goalId) == {r}
    ensures OfGoal(t, goalId) == Descendants(t, r)
    ensures SumOver(t, OfGoal(t, goalId), n) == RollupOf(t, n, r)
    ensures r in t && RollupOf(t, n, r) == TreeTotal(TableTree(t, n, r))
  {
    GoalIsItsTrees(t, n, goalId, [r]);
    assert r in RootsOf(t, goalId);
    RollupThreeWays(t, n, r);
  }

  /** For such a goal the report's billing rows are the entries of the root's rollup by billing code. */
  lemma SingleTreeBilling(t: Table, n: nat, goalId: nat, r: nat, rows: seq<(string, Total)>, out: map<string, Total>)
    requires Linked(t) && Below(t, n) && RootsOf(t, goalId) == {r}
    requires forall code :: code in Codes(rows) <==> exists k :: k in OfGoal(t, goalId) && CodeOf(t[k]) == code
    requires forall i | 0 <= i < |rows| ::
               rows[i].1 == SumOver(t, WithBilling(t, OfGoal(t, goalId), NullableString(rows[i].0)), n)
    requires forall code :: code in out <==> exists k :: k in Descendants(t, r) && t[k].billing == NullableString(code)
    requires forall code | code in out :: out[code] == SumOver(t, WithBilling(t, Descendants(t, r), NullableString(code)), n)
    ensures forall code :: code in Codes(rows) <==> code in out
    ensures forall i | 0 <= i < |rows| :: rows[i].0 in out && out[rows[i].0] == rows[i].1
  {
    SingleTreeGoal(t, n, goalId, r);
    forall k, code | k in OfGoal(t, goalId) ensures CodeOf(t[k]) == code <==> t[k].billing == NullableString(code) {
      assert RowLinked(t, k);
    }
    CodesAt(rows, |rows|);
    forall i | 0 <= i < |rows| ensures rows[i].0 in out {
      assert Codes(rows)[i] in Codes(rows);
    }
  }
}
