/** What every reachable goal_tasks table satisfies, and what the stored
    ancestry means in terms of the parent pointers. */
module TaskTable {
  import opened Common
  import opened TaskTypes

  /** A parent exists, belongs to the same goal and was inserted earlier. */
  ghost predicate PointerDown(t: Table, k: nat)
    requires k in t
  {
    match t[k].parent
    case None => true
    case Some(p) => p in t && p < k && t[p].goalId == t[k].goalId
  }

  ghost predicate PointersDown(t: Table) {
    forall k {:trigger PointerDown(t, k)} | k in t :: PointerDown(t, k)
  }

  function NodeOf(t: Table, p: nat): AncestryNode
    requires p in t
  {
    AncestryNode(p, t[p].title, t[p].criteria)
  }

  /** The redundant columns of one row agree with its parent's row. */
  ghost predicate RowLinked(t: Table, k: nat)
    requires k in t
  {
    && PointerDown(t, k)
    && t[k].depth == |t[k].ancestry|
    && t[k].billing != Some("")
    && t[k].ancestry == (match t[k].parent
                         case None => []
                         case Some(p) => t[p].ancestry + [NodeOf(t, p)])
  }

  ghost predicate Linked(t: Table) {
    PointersDown(t) && forall k {:trigger RowLinked(t, k)} | k in t :: RowLinked(t, k)
  }

  ghost predicate Below(t: Table, n: nat) {
    forall k | k in t :: k < n
  }

  /** The root-to-parent chain, read off the parent pointers alone. */
  ghost function Chain(t: Table, k: nat): seq<AncestryNode>
    requires PointersDown(t) && k in t
    decreases k
  {
    assert PointerDown(t, k);
    match t[k].parent
    case None => []
    case Some(p) => Chain(t, p) + [NodeOf(t, p)]
  }

  /** Row-by-row agreement is the same as agreement with the whole chain:
      the snapshot of every row is exactly its root-to-parent chain. */
  lemma {:induction false} SnapshotIsChain(t: Table)
    requires PointersDown(t)
    ensures Linked(t) <==> forall k | k in t ::
                             && t[k].ancestry == Chain(t, k)
                             && t[k].depth == |Chain(t, k)|
                             && t[k].billing != Some("")
  {
    if Linked(t) {
      forall k | k in t ensures t[k].ancestry == Chain(t, k) && t[k].depth == |Chain(t, k)| && t[k].billing != Some("") {
        assert RowLinked(t, k);
        LinkedChain(t, k);
      }
    }
  }

  lemma {:induction false} LinkedChain(t: Table, k: nat)
    requires Linked(t) && k in t
    ensures t[k].ancestry == Chain(t, k)
    decreases k
  {
    assert RowLinked(t, k);
    if t[k].parent.Some? {
      LinkedChain(t, t[k].parent.value);
    }
  }

  /** Entry `i` names a row with its own title and criteria: a root if it is
      the first, a child of the entry before otherwise. */
  ghost predicate IsEntry(t: Table, a: seq<AncestryNode>, i: nat)
    requires i < |a|
  {
    && a[i].id in t && a[i].title == t[a[i].id].title && a[i].criteria == t[a[i].id].criteria
    && t[a[i].id].parent == (if i == 0 then None else Some(a[i - 1].id))
  }

  /** The snapshot entry by entry, and the row itself a child of the last one. */
  lemma {:induction false} SnapshotEntries(t: Table, k: nat)
    requires Linked(t) && k in t
    ensures var a := t[k].ancestry;
            && (forall i {:trigger IsEntry(t, a, i)} | 0 <= i < |a| :: IsEntry(t, a, i))
            && t[k].parent == (if a == [] then None else Some(a[|a| - 1].id))
            && t[k].depth == |a|
    decreases k
  {
    assert RowLinked(t, k);
    if t[k].parent.Some? {
      var p := t[k].parent.value;
      SnapshotEntries(t, p);
      var a, b := t[k].ancestry, t[p].ancestry;
      assert a == b + [NodeOf(t, p)];
      forall i | 0 <= i < |a| ensures IsEntry(t, a, i) {
        if i < |b| {
          assert IsEntry(t, b, i);
        }
      }
    }
  }

  /** `k` is `r` or one of its descendants, following parent pointers. */
  ghost predicate Under(t: Table, k: nat, r: nat)
    requires PointersDown(t) && k in t
    decreases k
  {
    assert PointerDown(t, k);
    k == r || (t[k].parent.Some? && Under(t, t[k].parent.value, r))
  }

  ghost function Descendants(t: Table, r: nat): set<nat>
    requires PointersDown(t)
  {
    set k | k in t && Under(t, k, r)
  }

  ghost predicate Lists(ancestry: seq<AncestryNode>, r: nat) {
    exists i :: 0 <= i < |ancestry| && ancestry[i].id == r
  }

  /** A row is a descendant of `r` exactly when its snapshot lists `r`. */
  lemma {:induction false} UnderIsListed(t: Table, k: nat, r: nat)
    requires Linked(t) && k in t
    ensures Under(t, k, r) <==> k == r || Lists(t[k].ancestry, r)
    decreases k
  {
    assert RowLinked(t, k);
    if t[k].parent.Some? {
      var p := t[k].parent.value;
      UnderIsListed(t, p, r);
      var a, b := t[p].ancestry, t[k].ancestry;
      assert b[|a|].id == p;
      assert forall i :: 0 <= i < |a| ==> b[i] == a[i];
    }
  }

  lemma {:induction false} UnderAtLeast(t: Table, k: nat, r: nat)
    requires PointersDown(t) && k in t && Under(t, k, r)
    ensures r <= k && r in t && t[r].goalId == t[k].goalId
    decreases k
  {
    assert PointerDown(t, k);
    if k != r {
      UnderAtLeast(t, t[k].parent.value, r);
    }
  }

  lemma {:induction false} UnderTransitive(t: Table, k: nat, m: nat, r: nat)
    requires PointersDown(t) && k in t && Under(t, k, m) && m in t && Under(t, m, r)
    ensures Under(t, k, r)
    decreases k
  {
    assert PointerDown(t, k);
    if k != m {
      UnderTransitive(t, t[k].parent.value, m, r);
    }
  }

  /** Every task belongs to exactly one tree. */
  lemma {:induction false} UnderOneRoot(t: Table, k: nat) returns (r: nat)
    requires PointersDown(t) && k in t
    ensures r in t && t[r].parent.None? && Under(t, k, r)
    ensures t[r].goalId == t[k].goalId
    ensures forall q | q in t && t[q].parent.None? && Under(t, k, q) :: q == r
    decreases k
  {
    assert PointerDown(t, k);
    if t[k].parent.None? {
      r := k;
    } else {
      r := UnderOneRoot(t, t[k].parent.value);
    }
  }

  /** Two tables whose rows differ at most in working columns. */
  ghost predicate SameShape(t: Table, u: Table) {
    && t.Keys == u.Keys
    && forall k | k in t ::
         && u[k].goalId == t[k].goalId
         && u[k].parent == t[k].parent
         && u[k].ancestry == t[k].ancestry
         && u[k].depth == t[k].depth
         && u[k].title == t[k].title
         && u[k].criteria == t[k].criteria
         && u[k].billing == t[k].billing
  }

  /** Claims, transitions and spends never disturb the denormalized index. */
  lemma LinkedSameShape(t: Table, u: Table)
    requires Linked(t) && SameShape(t, u)
    ensures Linked(u)
  {
    forall k | k in u ensures RowLinked(u, k) {
      assert RowLinked(t, k);
    }
  }

  lemma {:induction false} UnderSameShape(t: Table, u: Table, k: nat, r: nat)
    requires PointersDown(t) && PointersDown(u) && SameShape(t, u) && k in t
    ensures Under(t, k, r) == Under(u, k, r)
    decreases k
  {
    assert PointerDown(t, k) && PointerDown(u, k);
    if t[k].parent.Some? {
      UnderSameShape(t, u, t[k].parent.value, r);
    }
  }

  /** The children of `p` among the ids below `n`, in increasing order. */
  function ChildIds(t: Table, p: nat, n: nat): (ids: seq<nat>)
    ensures Increasing(ids)
    ensures forall k {:trigger k in ids} :: k in ids <==> k in t && k < n && t[k].parent == Some(p)
  {
    if n == 0 then []
    else if n - 1 in t && t[n - 1].parent == Some(p) then
      var ids := ChildIds(t, p, n - 1);
      assert forall i :: 0 <= i < |ids| ==> ids[i] in ids;
      ids + [n - 1]
    else ChildIds(t, p, n - 1)
  }
}
