/** Spend totals over a subtree: by parent pointers, by snapshot, by shape of the tree. */
module Rollup {
  import opened Common
  import opened TaskTypes
  import opened TaskTable
  import opened TaskTree

  datatype Total = Total(tokens: int, cents: int, count: nat)

  function Plus(a: Total, b: Total): Total {
    Total(a.tokens + b.tokens, a.cents + b.cents, a.count + b.count)
  }

  const ZERO := Total(0, 0, 0)

  function RowTotal(task: Task): Total {
    Total(task.spentTokens, task.spentCents, 1)
  }

  /** SUM and COUNT over the rows of `t` with an id in `s` and below `n`. */
  function SumOver(t: Table, s: set<nat>, n: nat): Total
    decreases n
  {
    if n == 0 then ZERO
    else if n - 1 in t && n - 1 in s then Plus(SumOver(t, s, n - 1), RowTotal(t[n - 1]))
    else SumOver(t, s, n - 1)
  }

  lemma SumSplit(t: Table, a: set<nat>, b: set<nat>, n: nat)
    requires a !! b
    ensures SumOver(t, a + b, n) == Plus(SumOver(t, a, n), SumOver(t, b, n))
  {
    SumUnion(t, a, b, n);
  }

  ghost predicate IsSum(c: Total, a: Total, b: Total) {
    c.tokens == a.tokens + b.tokens && c.cents == a.cents + b.cents && c.count == a.count + b.count
  }

  lemma {:induction false} SumUnion(t: Table, a: set<nat>, b: set<nat>, n: nat)
    requires a !! b
    ensures IsSum(SumOver(t, a + b, n), SumOver(t, a, n), SumOver(t, b, n))
    decreases n
  {
    if n > 0 {
      SumUnion(t, a, b, n - 1);
    }
  }

  lemma {:induction false} SumEmpty(t: Table, n: nat)
    ensures SumOver(t, {}, n) == ZERO
    decreases n
  {
    if n > 0 {
      SumEmpty(t, n - 1);
    }
  }

  lemma {:induction false} SumOne(t: Table, k: nat, n: nat)
    ensures SumOver(t, {k}, n) == if k in t && k < n then RowTotal(t[k]) else ZERO
    decreases n
  {
    if n > 0 {
      SumOne(t, k, n - 1);
    }
  }

  /** Only ids that are in the table, and what is spent there, matter. */
  lemma {:induction false} SumAgree(t: Table, a: set<nat>, u: Table, b: set<nat>, n: nat)
    requires forall k | k < n :: (k in t && k in a) <==> (k in u && k in b)
    requires forall k | k < n && k in t && k in a :: RowTotal(t[k]) == RowTotal(u[k])
    ensures SumOver(t, a, n) == SumOver(u, b, n)
    decreases n
  {
    if n > 0 {
      SumAgree(t, a, u, b, n - 1);
    }
  }

  /** What the rows of a listing have spent, column by column. */
  function TokensOf(t: Table, ids: seq<nat>): int
    requires forall k | k in ids :: k in t
  {
    if ids == [] then 0 else TokensOf(t, ids[..|ids| - 1]) + t[ids[|ids| - 1]].spentTokens
  }

  function CentsOf(t: Table, ids: seq<nat>): int
    requires forall k | k in ids :: k in t
  {
    if ids == [] then 0 else CentsOf(t, ids[..|ids| - 1]) + t[ids[|ids| - 1]].spentCents
  }

  /** `ids` lists each row of `t` with an id in `s` and below `n` once. */
  ghost predicate Enumerates(ids: seq<nat>, t: Table, s: set<nat>, n: nat) {
    Distinct(ids) && forall k {:trigger k in ids} :: k in ids <==> k in t && k in s && k < n
  }

  /** The totals are those of the columns over any listing of the rows, and each row counts once. */
  lemma {:induction false} SumEnumerated(t: Table, s: set<nat>, n: nat, ids: seq<nat>)
    requires Enumerates(ids, t, s, n)
    ensures SumOver(t, s, n).tokens == TokensOf(t, ids)
    ensures SumOver(t, s, n).cents == CentsOf(t, ids)
    ensures SumOver(t, s, n).count == |ids|
    decreases |ids|
  {
    if ids == [] {
      forall k | k < n ensures !(k in t && k in s) {
        assert k !in ids;
      }
      SumAgree(t, s, t, {}, n);
      SumEmpty(t, n);
    } else {
      var init, k := ids[..|ids| - 1], ids[|ids| - 1];
      assert ids == init + [k] && k in ids;
      var rest := s - {k};
      forall j ensures j in init <==> j in t && j in rest && j < n {
        assert j in ids <==> j in init || j == k;
        assert k !in init;
      }
      SumEnumerated(t, rest, n, init);
      assert s == rest + {k};
      SumSplit(t, rest, {k}, n);
      SumOne(t, k, n);
    }
  }

  /** Every row counts once, whatever is in it. */
  lemma {:induction false} SumCount(t: Table, s: set<nat>, n: nat)
    ensures SumOver(t, s, n).count == |set k | k in s && k in t && k < n|
    decreases n
  {
    var all := set k | k in s && k in t && k < n;
    if n == 0 {
      assert all == {};
    } else {
      SumCount(t, s, n - 1);
      var before := set k | k in s && k in t && k < n - 1;
      assert all == before + if n - 1 in s && n - 1 in t then {n - 1} else {};
    }
  }

  // ------------------------------------------- the tree as it is shaped

  function TreeTotal(tree: Tree): Total
    decreases tree, 1
  {
    Plus(RowTotal(tree.task), TreesTotal(tree.children))
  }

  function TreesTotal(trees: seq<Tree>): Total
    decreases trees, 0
  {
    if trees == [] then ZERO
    else Plus(TreesTotal(trees[..|trees| - 1]), TreeTotal(trees[|trees| - 1]))
  }

  function TreeIds(tree: Tree): multiset<nat>
    decreases tree, 1
  {
    multiset{tree.id} + TreesIds(tree.children)
  }

  function TreesIds(trees: seq<Tree>): multiset<nat>
    decreases trees, 0
  {
    if trees == [] then multiset{}
    else TreesIds(trees[..|trees| - 1]) + TreeIds(trees[|trees| - 1])
  }

  lemma TreesSnocTotals(trees: seq<Tree>, tree: Tree)
    ensures TreesIds(trees + [tree]) == TreesIds(trees) + TreeIds(tree)
    ensures TreesTotal(trees + [tree]) == Plus(TreesTotal(trees), TreeTotal(tree))
  {
    assert (trees + [tree])[..|trees|] == trees;
  }

  /** Rows at or below one of several siblings. */
  ghost function UnderAny(t: Table, ids: seq<nat>): set<nat>
    requires PointersDown(t)
  {
    set k, i | k in t && 0 <= i < |ids| && Under(t, k, ids[i]) :: k
  }

  ghost predicate Siblings(t: Table, p: nat, n: nat, ids: seq<nat>) {
    Increasing(ids) && forall i | 0 <= i < |ids| :: ids[i] in t && p < ids[i] < n && t[ids[i]].parent == Some(p)
  }

  /** No row is below two different children of the same row. */
  lemma {:induction false} SiblingsApart(t: Table, k: nat, c: nat, d: nat, p: nat)
    requires PointersDown(t) && k in t && c in t && d in t && c != d
    requires t[c].parent == Some(p) && t[d].parent == Some(p)
    requires Under(t, k, c)
    ensures !Under(t, k, d)
    decreases k
  {
    assert PointerDown(t, k) && PointerDown(t, c) && PointerDown(t, d);
    if k == c {
      if Under(t, p, d) {
        UnderAtLeast(t, p, d);
      }
    } else if k == d {
      if Under(t, p, c) {
        UnderAtLeast(t, p, c);
      }
    } else {
      SiblingsApart(t, t[k].parent.value, c, d, p);
    }
  }

  /** Below `p` but not `p` itself means at or below one of its children. */
  lemma {:induction false} FirstStep(t: Table, k: nat, p: nat) returns (c: nat)
    requires PointersDown(t) && k in t && Under(t, k, p) && k != p
    ensures c in t && t[c].parent == Some(p) && Under(t, k, c)
    decreases k
  {
    assert PointerDown(t, k);
    var m := t[k].parent.value;
    if m == p {
      c := k;
    } else {
      c := FirstStep(t, m, p);
    }
  }

  lemma DescendantsSplit(t: Table, n: nat, p: nat)
    requires PointersDown(t) && Below(t, n) && p in t
    ensures var ids := ChildIds(t, p, n);
            && Siblings(t, p, n, ids)
            && p !in UnderAny(t, ids)
            && Descendants(t, p) == {p} + UnderAny(t, ids)
  {
    var ids := ChildIds(t, p, n);
    forall i | 0 <= i < |ids| ensures ids[i] in t && p < ids[i] && t[ids[i]].parent == Some(p) {
      assert ids[i] in ids && PointerDown(t, ids[i]);
    }
    forall k | k in UnderAny(t, ids) ensures k != p && Under(t, k, p) {
      var i :| 0 <= i < |ids| && Under(t, k, ids[i]);
      assert ids[i] in ids;
      UnderAtLeast(t, k, ids[i]);
      assert Under(t, ids[i], p);
      UnderTransitive(t, k, ids[i], p);
    }
    forall k | k in t && Under(t, k, p) && k != p ensures k in UnderAny(t, ids) {
      var c := FirstStep(t, k, p);
      assert c in ids;
    }
  }

  /** The tree read off the pointers lists every descendant exactly once, and
      its recursive total is the total over the descendants. */
  lemma {:induction false} TreeCovers(t: Table, n: nat, p: nat)
    requires PointersDown(t) && Below(t, n) && p in t && p < n
    ensures TreeIds(TableTree(t, n, p)) == multiset(Descendants(t, p))
    ensures TreeTotal(TableTree(t, n, p)) == SumOver(t, Descendants(t, p), n)
    decreases n - p, 1, 0
  {
    var ids := ChildIds(t, p, n);
    DescendantsSplit(t, n, p);
    TreesCover(t, n, p, ids);
    SumSplit(t, {p}, UnderAny(t, ids), n);
    SumOne(t, p, n);
    assert multiset({p} + UnderAny(t, ids)) == multiset{p} + multiset(UnderAny(t, ids));
  }

  lemma {:induction false} TreesCover(t: Table, n: nat, p: nat, ids: seq<nat>)
    requires PointersDown(t) && Below(t, n) && p < n && Siblings(t, p, n, ids)
    ensures TreesIds(Trees(t, n, p, ids)) == multiset(UnderAny(t, ids))
    ensures TreesTotal(Trees(t, n, p, ids)) == SumOver(t, UnderAny(t, ids), n)
    decreases n - p, 0, |ids|
  {
    if ids == [] {
      assert UnderAny(t, ids) == {};
      SumEmpty(t, n);
    } else {
      var init, c := ids[..|ids| - 1], ids[|ids| - 1];
      assert ids == init + [c];
      assert c in ids && forall k | k in init :: k in ids;
      TreesCover(t, n, p, init);
      TreeCovers(t, n, c);
      LastSiblingSums(t, n, p, init, c);
      TreesSnoc(t, n, p, init, c);
      TreesSnocTotals(Trees(t, n, p, init), TableTree(t, n, c));
    }
  }

  lemma LastSiblingSums(t: Table, n: nat, p: nat, init: seq<nat>, c: nat)
    requires PointersDown(t) && Siblings(t, p, n, init + [c])
    ensures multiset(UnderAny(t, init + [c])) == multiset(UnderAny(t, init)) + multiset(Descendants(t, c))
    ensures SumOver(t, UnderAny(t, init + [c]), n)
         == Plus(SumOver(t, UnderAny(t, init), n), SumOver(t, Descendants(t, c), n))
  {
    LastSibling(t, n, p, init, c);
    var a, b := UnderAny(t, init), Descendants(t, c);
    SumSplit(t, a, b, n);
    assert multiset(a + b) == multiset(a) + multiset(b);
  }

  lemma LastSibling(t: Table, n: nat, p: nat, init: seq<nat>, c: nat)
    requires PointersDown(t) && Siblings(t, p, n, init + [c])
    ensures UnderAny(t, init + [c]) == UnderAny(t, init) + Descendants(t, c)
    ensures UnderAny(t, init) !! Descendants(t, c)
  {
    var ids := init + [c];
    assert ids[|init|] == c && c in ids;
    forall k | k in UnderAny(t, init) ensures k in UnderAny(t, ids) && k !in Descendants(t, c) {
      var i :| 0 <= i < |init| && Under(t, k, init[i]);
      assert ids[i] == init[i] && ids[i] in ids && ids[i] < ids[|init|];
      SiblingsApart(t, k, init[i], c, p);
    }
    forall k | k in Descendants(t, c) ensures k in UnderAny(t, ids) {
      assert Under(t, k, ids[|init|]);
    }
    forall k | k in UnderAny(t, ids) ensures k in UnderAny(t, init) || k in Descendants(t, c) {
      var i :| 0 <= i < |ids| && Under(t, k, ids[i]);
      assert i < |init| ==> init[i] == ids[i];
    }
  }

  // ------------------------------------------------ the rollup itself

  /** Total spend at and below `r`, following parent pointers. */
  ghost function RollupOf(t: Table, n: nat, r: nat): Total
    requires PointersDown(t)
  {
    SumOver(t, Descendants(t, r), n)
  }

  /** Rows that are `r` or list it in their snapshot. */
  ghost function Listed(t: Table, r: nat): set<nat> {
    set k | k in t && (k == r || Lists(t[k].ancestry, r))
  }

  /** Three ways to total a subtree agree: by pointers, by snapshot, by tree shape. */
  lemma RollupThreeWays(t: Table, n: nat, r: nat)
    requires Linked(t) && Below(t, n)
    ensures RollupOf(t, n, r) == SumOver(t, Listed(t, r), n)
    ensures RollupOf(t, n, r) == if r in t then TreeTotal(TableTree(t, n, r)) else ZERO
  {
    forall k | k in t ensures k in Descendants(t, r) <==> k in Listed(t, r) {
      UnderIsListed(t, k, r);
    }
    assert Descendants(t, r) == Listed(t, r);
    if r in t {
      TreeCovers(t, n, r);
    } else {
      forall k | k in t ensures !Under(t, k, r) {
        if Under(t, k, r) { UnderAtLeast(t, k, r); }
      }
      assert Descendants(t, r) == {};
      SumEmpty(t, n);
    }
  }

  /** The count of a rollup is the number of tasks at and below the root, by pointers and by snapshots. */
  lemma RollupCounts(t: Table, n: nat, r: nat)
    requires Linked(t) && Below(t, n)
    ensures RollupOf(t, n, r).count == |Descendants(t, r)| == |Listed(t, r)|
  {
    SumCount(t, Descendants(t, r), n);
    assert (set k | k in Descendants(t, r) && k in t && k < n) == Descendants(t, r);
    forall k | k in t ensures k in Descendants(t, r) <==> k in Listed(t, r) {
      UnderIsListed(t, k, r);
    }
    assert Descendants(t, r) == Listed(t, r);
  }

  /** A spend raises the rollup of each row above it by that amount, and no other rollup. */
  lemma SpendReachesAncestors(t: Table, n: nat, k: nat, tokens: int, cents: int, r: nat)
    requires Linked(t) && Below(t, n) && k in t
    ensures var u := t[k := t[k].(spentTokens := t[k].spentTokens + tokens, spentCents := t[k].spentCents + cents)];
            && Linked(u)
            && RollupOf(u, n, r) == if Under(t, k, r) then Plus(RollupOf(t, n, r), Total(tokens, cents, 0))
                                    else RollupOf(t, n, r)
  {
    var u := t[k := t[k].(spentTokens := t[k].spentTokens + tokens, spentCents := t[k].spentCents + cents)];
    LinkedSameShape(t, u);
    forall j | j in t ensures Under(t, j, r) == Under(u, j, r) {
      UnderSameShape(t, u, j, r);
    }
    var d := Descendants(t, r);
    assert Descendants(u, r) == d;
    var rest := d - {k};
    SumAgree(t, rest, u, rest, n);
    if k in d {
      assert d == rest + {k};
      SumSplit(t, rest, {k}, n);
      SumSplit(u, rest, {k}, n);
      SumOne(t, k, n);
      SumOne(u, k, n);
    } else {
      assert d == rest;
    }
  }

  // --------------------------------------------- conservation by grouping

  ghost function WithBilling(t: Table, s: set<nat>, code: Option<string>): set<nat> {
    set k | k in s && k in t && t[k].billing == code
  }

  ghost function WithAnyBilling(t: Table, s: set<nat>, codes: seq<Option<string>>): set<nat> {
    set k | k in s && k in t && t[k].billing in codes
  }

  ghost function SumCodes(t: Table, s: set<nat>, codes: seq<Option<string>>, n: nat): Total {
    if codes == [] then ZERO
    else Plus(SumCodes(t, s, codes[..|codes| - 1], n),
              SumOver(t, WithBilling(t, s, codes[|codes| - 1]), n))
  }

  /** Grouping by billing code loses and doubles nothing: whatever order the
      codes come in, the groups add up to the whole. */
  lemma {:induction false} GroupsConserve(t: Table, s: set<nat>, codes: seq<Option<string>>, n: nat)
    requires Distinct(codes)
    ensures SumCodes(t, s, codes, n) == SumOver(t, WithAnyBilling(t, s, codes), n)
    decreases |codes|
  {
    if codes == [] {
      assert WithAnyBilling(t, s, codes) == {};
      SumEmpty(t, n);
    } else {
      var init, c := codes[..|codes| - 1], codes[|codes| - 1];
      assert codes == init + [c] && c !in init;
      GroupsConserve(t, s, init, n);
      var a := WithAnyBilling(t, s, init);
      var b := WithBilling(t, s, c);
      assert WithAnyBilling(t, s, codes) == a + b;
      SumSplit(t, a, b, n);
    }
  }

  // ------------------------------------------------------- whole goals

  ghost function OfGoal(t: Table, goalId: nat): set<nat> {
    set k | k in t && t[k].goalId == goalId
  }

  ghost function RootsOf(t: Table, goalId: nat): set<nat> {
    set k | k in t && t[k].goalId == goalId && t[k].parent.None?
  }

  ghost function SumRollups(t: Table, n: nat, roots: seq<nat>): Total
    requires PointersDown(t)
  {
    if roots == [] then ZERO
    else Plus(SumRollups(t, n, roots[..|roots| - 1]), RollupOf(t, n, roots[|roots| - 1]))
  }

  /** The rows of a goal are its trees, each row in one tree only: the goal's
      total is the sum of the rollups of its roots, however many there are. */
  lemma GoalIsItsTrees(t: Table, n: nat, goalId: nat, roots: seq<nat>)
    requires PointersDown(t) && Below(t, n)
    requires Distinct(roots) && forall r :: r in roots <==> r in RootsOf(t, goalId)
    ensures SumOver(t, OfGoal(t, goalId), n) == SumRollups(t, n, roots)
    ensures |roots| == 1 ==> OfGoal(t, goalId) == Descendants(t, roots[0])
  {
    SumRootsUnder(t, n, goalId, roots);
    var all := UnderAny(t, roots);
    forall k | k in OfGoal(t, goalId) ensures k in all {
      var r := UnderOneRoot(t, k);
      assert r in roots;
    }
    forall k | k in all ensures k in OfGoal(t, goalId) {
      var i :| 0 <= i < |roots| && Under(t, k, roots[i]);
      assert roots[i] in roots;
      UnderAtLeast(t, k, roots[i]);
    }
    assert all == OfGoal(t, goalId);
    if |roots| == 1 {
      assert forall k | k in all :: Under(t, k, roots[0]);
      assert all == Descendants(t, roots[0]);
    }
  }

  lemma {:induction false} SumRootsUnder(t: Table, n: nat, goalId: nat, roots: seq<nat>)
    requires PointersDown(t) && Below(t, n)
    requires Distinct(roots) && forall r | r in roots :: r in RootsOf(t, goalId)
    ensures SumOver(t, UnderAny(t, roots), n) == SumRollups(t, n, roots)
    decreases |roots|
  {
    if roots == [] {
      assert UnderAny(t, roots) == {};
      SumEmpty(t, n);
    } else {
      var init, c := roots[..|roots| - 1], roots[|roots| - 1];
      assert roots == init + [c];
      assert forall r | r in init :: r in roots;
      SumRootsUnder(t, n, goalId, init);
      var a, b := UnderAny(t, init), Descendants(t, c);
      forall k | k in a ensures k !in b && k in UnderAny(t, roots) {
        var i :| 0 <= i < |init| && Under(t, k, init[i]);
        assert init[i] == roots[i] && roots[i] in roots && roots[|init|] in roots;
        var r := UnderOneRoot(t, k);
      }
      forall k | k in b ensures k in UnderAny(t, roots) {
        assert Under(t, k, roots[|init|]);
      }
      forall k | k in UnderAny(t, roots) ensures k in a + b {
        var i :| 0 <= i < |roots| && Under(t, k, roots[i]);
        assert i < |init| ==> init[i] == roots[i];
      }
      assert UnderAny(t, roots) == a + b;
      SumSplit(t, a, b, n);
    }
  }
}
