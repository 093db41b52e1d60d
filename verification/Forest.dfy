/** Parent pointers of dataset nodes, read as mathematics: the k-th parent of a node, subtrees,
    and what it means for the pointers to form a forest. */
module Forest {
  import opened Wrappers

  type NodeId = nat

  /** One entry per existing node; `None` marks a root (a null parent). */
  type Parents = map<NodeId, Option<NodeId>>

  /** The foreign key: a parent is an existing node. */
  ghost predicate Closed(p: Parents) {
    forall d :: d in p && p[d].Some? ==> p[d].value in p
  }

  /** The k-th parent of d; the 0-th is d itself. */
  ghost function Up(p: Parents, d: NodeId, k: nat): Option<NodeId>
    decreases k
  {
    if k == 0 then Some(d)
    else if d in p && p[d].Some? then Up(p, p[d].value, k - 1)
    else None
  }

  ghost predicate ReachesRoot(p: Parents, d: NodeId) {
    exists k: nat :: Up(p, d, k).None?
  }

  /** The parent pointers are closed and have no cycle: climbing always ends. */
  ghost predicate IsForest(p: Parents) {
    Closed(p) && forall d :: d in p ==> ReachesRoot(p, d)
  }

  /** A node whose climb ends, whatever cycles there are elsewhere. */
  ghost predicate Grounded(p: Parents, n: NodeId) {
    Closed(p) && n in p && ReachesRoot(p, n)
  }

  ghost predicate OnCycle(p: Parents, n: NodeId) {
    exists k: nat :: k > 0 && Up(p, n, k) == Some(n)
  }

  /** Climbing from d meets n. */
  ghost predicate Below(p: Parents, n: NodeId, d: NodeId) {
    exists k: nat :: Up(p, d, k) == Some(n)
  }

  ghost predicate InSubtree(p: Parents, n: NodeId, d: NodeId) {
    d in p && Below(p, n, d)
  }

  ghost function Subtree(p: Parents, n: NodeId): set<NodeId> {
    set d | d in p && InSubtree(p, n, d)
  }

  ghost function Children(p: Parents, n: NodeId): set<NodeId> {
    set c | c in p && p[c] == Some(n)
  }

  lemma {:induction false} UpAdd(p: Parents, d: NodeId, j: nat, k: nat)
    ensures Up(p, d, j + k) == match Up(p, d, j) case Some(a) => Up(p, a, k) case None => None
    decreases j
  {
    if j > 0 && d in p && p[d].Some? {
      UpAdd(p, p[d].value, j - 1, k);
    }
  }

  /** Climbing from inside the node table stays inside it. */
  lemma {:induction false} UpStays(p: Parents, d: NodeId, k: nat)
    requires Closed(p) && d in p
    ensures Up(p, d, k).Some? ==> Up(p, d, k).value in p
    decreases k
  {
    if k > 0 && p[d].Some? {
      UpStays(p, p[d].value, k - 1);
    }
  }

  lemma {:induction false} NoReturnWithin(p: Parents, d: NodeId, k: nat, end: nat)
    requires Up(p, d, end).None? && k > 0
    ensures Up(p, d, k) != Some(d)
    decreases end
  {
    if Up(p, d, k) == Some(d) {
      if end <= k {
        UpAdd(p, d, end, k - end);
      } else {
        UpAdd(p, d, k, end - k);
        NoReturnWithin(p, d, k, end - k);
      }
    }
  }

  /** A node whose climb ends is never its own proper ancestor. */
  lemma NoReturn(p: Parents, d: NodeId, k: nat)
    requires ReachesRoot(p, d) && k > 0
    ensures Up(p, d, k) != Some(d)
  {
    var end: nat :| Up(p, d, end).None?;
    NoReturnWithin(p, d, k, end);
  }

  lemma ReachesRootAbove(p: Parents, d: NodeId, k: nat)
    requires ReachesRoot(p, d) && Up(p, d, k).Some?
    ensures ReachesRoot(p, Up(p, d, k).value)
  {
    var end: nat :| Up(p, d, end).None?;
    if end <= k {
      UpAdd(p, d, end, k - end);
    } else {
      UpAdd(p, d, k, end - k);
    }
  }

  lemma ReachesRootBelow(p: Parents, d: NodeId, k: nat)
    requires Up(p, d, k).Some? && ReachesRoot(p, Up(p, d, k).value)
    ensures ReachesRoot(p, d)
  {
    var end: nat :| Up(p, Up(p, d, k).value, end).None?;
    UpAdd(p, d, k, end);
  }

  lemma NeverTwice(p: Parents, d: NodeId, i: nat, j: nat)
    requires ReachesRoot(p, d) && i < j && Up(p, d, i).Some?
    ensures Up(p, d, i) != Up(p, d, j)
  {
    UpAdd(p, d, i, j - i);
    ReachesRootAbove(p, d, i);
    NoReturn(p, Up(p, d, i).value, j - i);
  }

  /** Two nodes are at one distance only: (ancestor, descendant) determines the depth. */
  lemma DepthUnique(p: Parents, d: NodeId, i: nat, j: nat)
    requires ReachesRoot(p, d)
    requires Up(p, d, i).Some? && Up(p, d, i) == Up(p, d, j)
    ensures i == j
  {
    if i < j {
      NeverTwice(p, d, i, j);
    } else if j < i {
      NeverTwice(p, d, j, i);
    }
  }

  lemma SubtreeOfDescendant(p: Parents, n: NodeId, c: NodeId, d: NodeId)
    requires InSubtree(p, n, c) && InSubtree(p, c, d)
    ensures InSubtree(p, n, d)
  {
    var i: nat :| Up(p, c, i) == Some(n);
    var j: nat :| Up(p, d, j) == Some(c);
    UpAdd(p, d, j, i);
  }

  lemma SelfInSubtree(p: Parents, n: NodeId)
    requires n in p
    ensures InSubtree(p, n, n)
  {
    assert Up(p, n, 0) == Some(n);
  }

  lemma ChildInSubtree(p: Parents, n: NodeId, c: NodeId)
    requires c in Children(p, n)
    ensures InSubtree(p, n, c)
  {
    assert Up(p, c, 1) == Some(n) by { assert Up(p, n, 0) == Some(n); }
  }

  lemma ParentNotBelowChild(p: Parents, n: NodeId, c: NodeId)
    requires Grounded(p, n) && c in Children(p, n)
    ensures !InSubtree(p, c, n)
  {
    if k: nat :| Up(p, n, k) == Some(c) {
      UpAdd(p, n, k, 1);
      assert Up(p, c, 1) == Some(n) by { assert Up(p, n, 0) == Some(n); }
      NoReturn(p, n, k + 1);
    }
  }

  lemma GroundedBelow(p: Parents, n: NodeId, d: NodeId)
    requires Grounded(p, n) && InSubtree(p, n, d)
    ensures Grounded(p, d)
  {
    var k: nat :| Up(p, d, k) == Some(n);
    ReachesRootBelow(p, d, k);
  }

  lemma GroundedAbove(p: Parents, n: NodeId, d: NodeId)
    requires Grounded(p, d) && InSubtree(p, n, d)
    ensures Grounded(p, n)
  {
    var k: nat :| Up(p, d, k) == Some(n);
    UpStays(p, d, k);
    ReachesRootAbove(p, d, k);
  }

  /** Recursion over children terminates: a child's subtree is strictly smaller. */
  lemma ChildSubtreeSmaller(p: Parents, n: NodeId, c: NodeId)
    requires Grounded(p, n) && c in Children(p, n)
    ensures Grounded(p, c) && Subtree(p, c) < Subtree(p, n)
    ensures n !in Subtree(p, c)
  {
    ChildInSubtree(p, n, c);
    forall d | d in Subtree(p, c)
      ensures d in Subtree(p, n)
    {
      SubtreeOfDescendant(p, n, c, d);
    }
    SelfInSubtree(p, n);
    ParentNotBelowChild(p, n, c);
    GroundedBelow(p, n, c);
    assert n in Subtree(p, n) && n !in Subtree(p, c);
  }

  /** Every proper member of a subtree lies below exactly one child of its top. */
  lemma BelowSomeChild(p: Parents, n: NodeId, d: NodeId) returns (c: NodeId)
    requires Closed(p) && InSubtree(p, n, d) && d != n
    ensures c in Children(p, n) && InSubtree(p, c, d)
  {
    var k: nat :| Up(p, d, k) == Some(n);
    UpAdd(p, d, k - 1, 1);
    c := Up(p, d, k - 1).value;
    UpStays(p, d, k - 1);
    assert Up(p, c, 1) == Some(n);
    assert p[c].Some? && Up(p, p[c].value, 0) == Some(n);
  }

  lemma ChildSubtreesDisjoint(p: Parents, n: NodeId, c1: NodeId, c2: NodeId, d: NodeId)
    requires Grounded(p, n) && c1 in Children(p, n) && c2 in Children(p, n)
    requires InSubtree(p, c1, d) && InSubtree(p, c2, d)
    ensures c1 == c2
  {
    ChildInSubtree(p, n, c1);
    SubtreeOfDescendant(p, n, c1, d);
    GroundedBelow(p, n, d);
    var i: nat :| Up(p, d, i) == Some(c1);
    var j: nat :| Up(p, d, j) == Some(c2);
    UpAdd(p, d, i, 1);
    UpAdd(p, d, j, 1);
    assert Up(p, c1, 1) == Some(n) by { assert Up(p, n, 0) == Some(n); }
    assert Up(p, c2, 1) == Some(n) by { assert Up(p, n, 0) == Some(n); }
    DepthUnique(p, d, i + 1, j + 1);
  }

  // ---- Changing one pointer ----

  /** Outside the subtree of n, climbing never looks at n's pointer. */
  lemma {:induction false} UpUnaffected(p: Parents, n: NodeId, q: Option<NodeId>, d: NodeId, k: nat)
    requires !Below(p, n, d)
    ensures Up(p[n := q], d, k) == Up(p, d, k)
    decreases k
  {
    assert Up(p, d, 0) != Some(n);
    if k > 0 && d in p && p[d].Some? {
      forall j: nat ensures Up(p, p[d].value, j) != Some(n) {
        assert Up(p, d, j + 1) == Up(p, p[d].value, j);
      }
      UpUnaffected(p, n, q, p[d].value, k - 1);
    }
  }

  /** Up to the moved node n itself, climbing is as before the move. */
  lemma {:induction false} UpToMoved(p: Parents, n: NodeId, q: Option<NodeId>, d: NodeId, k: nat)
    requires forall j: nat :: j < k ==> Up(p, d, j) != Some(n)
    ensures Up(p[n := q], d, k) == Up(p, d, k)
    decreases k
  {
    if k > 0 {
      assert Up(p, d, 0) != Some(n);
      if d in p && p[d].Some? {
        forall j: nat | j < k - 1 ensures Up(p, p[d].value, j) != Some(n) {
          assert Up(p, d, j + 1) == Up(p, p[d].value, j);
        }
        UpToMoved(p, n, q, p[d].value, k - 1);
      }
    }
  }

  lemma {:induction false} FirstHit(p: Parents, d: NodeId, n: NodeId, k: nat) returns (first: nat)
    requires Up(p, d, k) == Some(n)
    ensures Up(p, d, first) == Some(n)
    ensures forall j: nat :: j < first ==> Up(p, d, j) != Some(n)
  {
    first := 0;
    while Up(p, d, first) != Some(n)
      invariant first <= k
      invariant forall j: nat :: j < first ==> Up(p, d, j) != Some(n)
      decreases k - first
    {
      first := first + 1;
    }
  }

  lemma MovedStillBelow(p: Parents, n: NodeId, q: Option<NodeId>, d: NodeId)
    requires InSubtree(p, n, d)
    ensures Below(p[n := q], n, d)
  {
    var k: nat :| Up(p, d, k) == Some(n);
    var first := FirstHit(p, d, n, k);
    UpToMoved(p, n, q, d, first);
  }

  lemma RootReachedFromMoved(p: Parents, n: NodeId, q: Option<NodeId>)
    requires IsForest(p)
    requires q.Some? ==> q.value in p && !Below(p, n, q.value)
    ensures ReachesRoot(p[n := q], n)
  {
    var p' := p[n := q];
    match q
    case None =>
      assert Up(p', n, 1).None?;
    case Some(a) =>
      var end: nat :| Up(p, a, end).None?;
      UpUnaffected(p, n, q, a, end);
      assert Up(p', n, end + 1).None?;
  }

  /** Moving a node to the root, under a node outside its subtree, or adding a fresh node, keeps
      the forest. */
  lemma MoveKeepsForest(p: Parents, n: NodeId, q: Option<NodeId>)
    requires IsForest(p)
    requires q.Some? ==> q.value in p && !Below(p, n, q.value)
    ensures IsForest(p[n := q])
  {
    var p' := p[n := q];
    RootReachedFromMoved(p, n, q);
    forall d | d in p'
      ensures ReachesRoot(p', d)
    {
      if Below(p, n, d) {
        var j: nat :| Up(p, d, j) == Some(n);
        var first := FirstHit(p, d, n, j);
        UpToMoved(p, n, q, d, first);
        ReachesRootBelow(p', d, first);
      } else {
        var end: nat :| Up(p, d, end).None?;
        UpUnaffected(p, n, q, d, end);
      }
    }
  }

  /** Moving n under q keeps the forest, or breaks it, exactly by whether q is outside n's subtree. */
  lemma ReparentKeepsForestIff(p: Parents, n: NodeId, q: NodeId)
    requires IsForest(p) && n in p && q in p
    ensures IsForest(p[n := Some(q)]) <==> !InSubtree(p, n, q)
  {
    var p' := p[n := Some(q)];
    if InSubtree(p, n, q) {
      MovedStillBelow(p, n, Some(q), q);
      var k: nat :| Up(p', q, k) == Some(n);
      assert Up(p', n, k + 1) == Some(n);
      if IsForest(p') {
        NoReturn(p', n, k + 1);
      }
    } else {
      MoveKeepsForest(p, n, Some(q));
    }
  }

  /** A root and its child; moving the root under its child leaves no forest. */
  lemma OwnChildCounterexample()
    ensures var p: Parents := map[0 := None, 1 := Some(0)];
            IsForest(p) && !IsForest(p[0 := Some(1)])
  {
    var p: Parents := map[0 := None, 1 := Some(0)];
    assert Up(p, 0, 1).None? && Up(p, 1, 2).None?;
    forall d | d in p ensures ReachesRoot(p, d) {
      assert d == 0 || d == 1;
    }
    assert Up(p, 1, 1) == Some(0) by { assert Up(p, 0, 0) == Some(0); }
    assert InSubtree(p, 0, 1);
    ReparentKeepsForestIff(p, 0, 1);
  }
}
