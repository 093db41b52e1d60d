/** The nested listing of the dataset tree: roots at the top, every node's children below it in
    name order. */
module DatasetListing {
  import opened Wrappers
  import opened Sequences
  import opened Forest

  datatype Tree = Tree(id: NodeId, children: seq<Tree>)

  /** Where a node's name stands in the database's name order; equal names share a rank. */
  type NameRank = NodeId -> int

  ghost predicate Sorted(s: seq<NodeId>, rank: NameRank) {
    forall i, j :: 0 <= i < j < |s| ==> rank(s[i]) <= rank(s[j])
  }

  /** `order_by("name")`; nodes of equal name come in some fixed order. */
  ghost function InNameOrder(s: set<NodeId>, rank: NameRank): (r: seq<NodeId>)
    ensures Distinct(r) && Sorted(r, rank)
    ensures forall x :: x in r <==> x in s
  {
    if s == {} then []
    else
      LeastExists(s, rank);
      var x :| x in s && forall y :: y in s ==> rank(x) <= rank(y);
      [x] + InNameOrder(s - {x}, rank)
  }

  /** The serializer applied to one node. It recurses through a query on `parent`; below a node that
      climbs to a root the subtree shrinks with every call. */
  ghost function BuildTree(p: Parents, rank: NameRank, n: NodeId): Tree
    requires Grounded(p, n)
    decreases Subtree(p, n), 1, 0
  {
    Tree(n, BuildChildren(p, rank, n, InNameOrder(Children(p, n), rank)))
  }

  ghost function BuildChildren(p: Parents, rank: NameRank, n: NodeId, kids: seq<NodeId>): seq<Tree>
    requires Grounded(p, n)
    requires forall c :: c in kids ==> c in Children(p, n)
    decreases Subtree(p, n), 0, |kids|
  {
    if kids == [] then []
    else
      ChildSubtreeSmaller(p, n, kids[0]);
      [BuildTree(p, rank, kids[0])] + BuildChildren(p, rank, n, kids[1..])
  }

  lemma RootIsGrounded(p: Parents, r: NodeId)
    requires Closed(p) && r in p && p[r].None?
    ensures Grounded(p, r)
  {
    assert Up(p, r, 1).None?;
  }

  /** The list view: the trees of the roots, in whatever order the query returns the roots. */
  ghost function BuildListing(p: Parents, rank: NameRank, roots: seq<NodeId>): seq<Tree>
    requires Closed(p) && forall r :: r in roots ==> r in p && p[r].None?
  {
    if roots == [] then []
    else
      RootIsGrounded(p, roots[0]);
      [BuildTree(p, rank, roots[0])] + BuildListing(p, rank, roots[1..])
  }

  /** All nodes of a tree, top first. */
  ghost function Nodes(t: Tree): seq<NodeId>
    decreases t, 1
  {
    [t.id] + NodesOf(t.children)
  }

  ghost function NodesOf(ts: seq<Tree>): seq<NodeId>
    decreases ts, 0
  {
    if ts == [] then [] else Nodes(ts[0]) + NodesOf(ts[1..])
  }

  /** Every tree edge is a parent pointer, siblings are in name order. */
  ghost predicate Mirrors(p: Parents, rank: NameRank, t: Tree)
    decreases t, 1
  {
    MirrorsUnder(p, rank, t.id, t.children)
  }

  ghost predicate MirrorsUnder(p: Parents, rank: NameRank, n: NodeId, ts: seq<Tree>)
    decreases ts, 0
  {
    ts == [] ||
    (&& ts[0].id in p && p[ts[0].id] == Some(n)
     && Mirrors(p, rank, ts[0])
     && (|ts| > 1 ==> rank(ts[0].id) <= rank(ts[1].id))
     && MirrorsUnder(p, rank, n, ts[1..]))
  }

  ghost predicate BelowOne(p: Parents, tops: seq<NodeId>, d: NodeId) {
    exists c :: c in tops && InSubtree(p, c, d)
  }

  ghost function UnionOfSubtrees(p: Parents, tops: seq<NodeId>): set<NodeId> {
    set d | d in p && BelowOne(p, tops, d)
  }

  /** Adding one more top, disjoint from the others, adds exactly its subtree. */
  lemma UnionSplit(p: Parents, tops: seq<NodeId>)
    requires tops != []
    requires forall c, d :: c in tops[1..] && InSubtree(p, c, d) ==> !InSubtree(p, tops[0], d)
    ensures multiset(UnionOfSubtrees(p, tops))
         == multiset(Subtree(p, tops[0])) + multiset(UnionOfSubtrees(p, tops[1..]))
  {
    var first, rest := Subtree(p, tops[0]), UnionOfSubtrees(p, tops[1..]);
    forall d
      ensures d in UnionOfSubtrees(p, tops) <==> d in first || d in rest
    {
      assert tops == [tops[0]] + tops[1..];
    }
    assert UnionOfSubtrees(p, tops) == first + rest;
    assert first !! rest;
  }

  /** A subtree is its top and the subtrees of the top's children. */
  lemma SubtreeSplit(p: Parents, n: NodeId, kids: seq<NodeId>)
    requires Grounded(p, n)
    requires forall c :: c in kids <==> c in Children(p, n)
    ensures n !in UnionOfSubtrees(p, kids)
    ensures Subtree(p, n) == {n} + UnionOfSubtrees(p, kids)
  {
    var below := UnionOfSubtrees(p, kids);
    forall c | c in kids ensures !InSubtree(p, c, n) {
      ParentNotBelowChild(p, n, c);
    }
    SelfInSubtree(p, n);
    forall d | d in Subtree(p, n) && d != n
      ensures d in below
    {
      var c := BelowSomeChild(p, n, d);
      assert c in kids;
    }
    forall d | d in below
      ensures d in Subtree(p, n)
    {
      var c :| c in kids && InSubtree(p, c, d);
      ChildInSubtree(p, n, c);
      SubtreeOfDescendant(p, n, c, d);
    }
  }

  lemma AddTop(n: NodeId, below: set<NodeId>, s: seq<NodeId>)
    requires n !in below && multiset(s) == multiset(below)
    ensures multiset([n] + s) == multiset({n} + below)
  {
  }

  /** The tree of n holds each node of n's subtree exactly once, and nothing else. */
  lemma {:induction false} TreeHoldsSubtree(p: Parents, rank: NameRank, n: NodeId)
    requires Grounded(p, n)
    ensures multiset(Nodes(BuildTree(p, rank, n))) == multiset(Subtree(p, n))
    decreases Subtree(p, n), 1, 0
  {
    var kids := InNameOrder(Children(p, n), rank);
    ChildrenHoldSubtrees(p, rank, n, kids);
    SubtreeSplit(p, n, kids);
    AddTop(n, UnionOfSubtrees(p, kids), NodesOf(BuildChildren(p, rank, n, kids)));
  }

  lemma FlattenStep(t: Tree, ts: seq<Tree>)
    ensures NodesOf([t] + ts) == Nodes(t) + NodesOf(ts)
  {
    assert ([t] + ts)[1..] == ts;
  }

  lemma {:induction false} ChildrenHoldSubtrees(p: Parents, rank: NameRank, n: NodeId, kids: seq<NodeId>)
    requires Grounded(p, n)
    requires Distinct(kids) && forall c :: c in kids ==> c in Children(p, n)
    ensures multiset(NodesOf(BuildChildren(p, rank, n, kids))) == multiset(UnionOfSubtrees(p, kids))
    decreases Subtree(p, n), 0, |kids|
  {
    if kids == [] {
      assert UnionOfSubtrees(p, kids) == {};
    } else {
      var first, rest := kids[0], kids[1..];
      ChildSubtreeSmaller(p, n, first);
      TreeHoldsSubtree(p, rank, first);
      ChildrenHoldSubtrees(p, rank, n, rest);
      forall c, d | c in rest && InSubtree(p, c, d)
        ensures !InSubtree(p, first, d)
      {
        if InSubtree(p, first, d) {
          ChildSubtreesDisjoint(p, n, c, first, d);
        }
      }
      UnionSplit(p, kids);
      FlattenStep(BuildTree(p, rank, first), BuildChildren(p, rank, n, rest));
    }
  }

  /** Two roots have no node in common. */
  lemma RootsDisjoint(p: Parents, r1: NodeId, r2: NodeId, d: NodeId)
    requires r1 in p && r2 in p && p[r1].None? && p[r2].None?
    requires InSubtree(p, r1, d) && InSubtree(p, r2, d)
    ensures r1 == r2
  {
    var i: nat :| Up(p, d, i) == Some(r1);
    var j: nat :| Up(p, d, j) == Some(r2);
    if i < j {
      UpAdd(p, d, i, j - i);
    } else if j < i {
      UpAdd(p, d, j, i - j);
    }
  }

  lemma {:induction false} HasRoot(p: Parents, d: NodeId, end: nat) returns (r: NodeId)
    requires Closed(p) && d in p && Up(p, d, end).None?
    ensures r in p && p[r].None? && InSubtree(p, r, d)
    decreases end
  {
    if p[d].None? {
      r := d;
      SelfInSubtree(p, d);
    } else {
      r := HasRoot(p, p[d].value, end - 1);
      assert d in Children(p, p[d].value);
      ChildInSubtree(p, p[d].value, d);
      SubtreeOfDescendant(p, r, p[d].value, d);
    }
  }

  lemma {:induction false} ListingHoldsSubtrees(p: Parents, rank: NameRank, roots: seq<NodeId>)
    requires Closed(p) && Distinct(roots)
    requires forall r :: r in roots ==> r in p && p[r].None?
    ensures multiset(NodesOf(BuildListing(p, rank, roots))) == multiset(UnionOfSubtrees(p, roots))
  {
    if roots == [] {
      assert UnionOfSubtrees(p, roots) == {};
    } else {
      RootIsGrounded(p, roots[0]);
      TreeHoldsSubtree(p, rank, roots[0]);
      ListingHoldsSubtrees(p, rank, roots[1..]);
      forall c, d | c in roots[1..] && InSubtree(p, c, d)
        ensures !InSubtree(p, roots[0], d)
      {
        if InSubtree(p, roots[0], d) {
          RootsDisjoint(p, c, roots[0], d);
        }
      }
      UnionSplit(p, roots);
      FlattenStep(BuildTree(p, rank, roots[0]), BuildListing(p, rank, roots[1..]));
    }
  }

  ghost function GroundedNodes(p: Parents): set<NodeId> {
    set d | d in p && Grounded(p, d)
  }

  /** The nodes below the roots are those whose climb ends. */
  lemma RootsCover(p: Parents, roots: seq<NodeId>)
    requires Closed(p)
    requires forall r :: r in roots <==> r in p && p[r].None?
    ensures UnionOfSubtrees(p, roots) == GroundedNodes(p)
  {
    forall d | d in p
      ensures BelowOne(p, roots, d) <==> Grounded(p, d)
    {
      if Grounded(p, d) {
        var end: nat :| Up(p, d, end).None?;
        var r := HasRoot(p, d, end);
        assert r in roots;
      }
      if c :| c in roots && InSubtree(p, c, d) {
        RootIsGrounded(p, c);
        GroundedBelow(p, c, d);
      }
    }
  }

  /** The listing contains every node that climbs to a root exactly once, and no other. */
  lemma ListingHoldsGrounded(p: Parents, rank: NameRank, roots: seq<NodeId>)
    requires Closed(p) && Distinct(roots)
    requires forall r :: r in roots <==> r in p && p[r].None?
    ensures multiset(NodesOf(BuildListing(p, rank, roots))) == multiset(GroundedNodes(p))
  {
    ListingHoldsSubtrees(p, rank, roots);
    RootsCover(p, roots);
  }

  /** The nodes on and below cycles are left out, so the listing is complete exactly when there are none. */
  lemma ListingIsCompleteIff(p: Parents, rank: NameRank, roots: seq<NodeId>)
    requires Closed(p) && Distinct(roots)
    requires forall r :: r in roots <==> r in p && p[r].None?
    ensures multiset(NodesOf(BuildListing(p, rank, roots))) == multiset(p.Keys) <==> IsForest(p)
  {
    ListingHoldsGrounded(p, rank, roots);
    if IsForest(p) {
      assert GroundedNodes(p) == p.Keys;
    } else if d :| d in p && !ReachesRoot(p, d) {
      assert d !in multiset(GroundedNodes(p)) && d in multiset(p.Keys);
    }
  }

  /** Every node of the tree sits under its own parent, siblings in name order. */
  lemma {:induction false} TreeMirrorsParents(p: Parents, rank: NameRank, n: NodeId)
    requires Grounded(p, n)
    ensures Mirrors(p, rank, BuildTree(p, rank, n))
    decreases Subtree(p, n), 1, 0
  {
    ChildrenMirrorParents(p, rank, n, InNameOrder(Children(p, n), rank));
  }

  lemma {:induction false} ChildrenMirrorParents(p: Parents, rank: NameRank, n: NodeId, kids: seq<NodeId>)
    requires Grounded(p, n)
    requires Sorted(kids, rank) && forall c :: c in kids ==> c in Children(p, n)
    ensures MirrorsUnder(p, rank, n, BuildChildren(p, rank, n, kids))
    decreases Subtree(p, n), 0, |kids|
  {
    if kids != [] {
      ChildSubtreeSmaller(p, n, kids[0]);
      TreeMirrorsParents(p, rank, kids[0]);
      ChildrenMirrorParents(p, rank, n, kids[1..]);
      var ts := BuildChildren(p, rank, n, kids);
      assert ts[1..] == BuildChildren(p, rank, n, kids[1..]);
      if |kids| > 1 {
        ChildSubtreeSmaller(p, n, kids[1]);
        assert ts[1] == BuildTree(p, rank, kids[1]);
      }
    }
  }

  /** The listing is one tree for each root, in the order of the roots: with the root on top, every other
      node under its own parent, siblings in name order, and each node of the root's subtree once. */
  lemma {:induction false} ListingIsOfRoots(p: Parents, rank: NameRank, roots: seq<NodeId>)
    requires Closed(p) && forall r :: r in roots ==> r in p && p[r].None?
    ensures var listing := BuildListing(p, rank, roots);
            && |listing| == |roots|
            && forall i :: 0 <= i < |roots| ==>
                 && listing[i].id == roots[i]
                 && Mirrors(p, rank, listing[i])
                 && multiset(Nodes(listing[i])) == multiset(Subtree(p, roots[i]))
  {
    if roots != [] {
      RootIsGrounded(p, roots[0]);
      TreeMirrorsParents(p, rank, roots[0]);
      TreeHoldsSubtree(p, rank, roots[0]);
      ListingIsOfRoots(p, rank, roots[1..]);
      assert BuildListing(p, rank, roots)[1..] == BuildListing(p, rank, roots[1..]);
    }
  }
}
