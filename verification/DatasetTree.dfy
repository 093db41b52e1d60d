/** The dataset tree: nodes with parent pointers, the closure table kept beside them by the save
    signals, and deletion, which trusts the table to find the files it must remove. */
module DatasetTree {
  import opened Wrappers
  import opened Sequences
  import opened Forest
  import opened ClosureTable

  /** The rows `create_ancestor_closures` builds: one per row of the parent, one level deeper. */
  function AncestorRows(rows: set<Row>, q: NodeId, node: NodeId): set<Row> {
    set r | r in rows && r.desc == q :: Row(r.anc, node, r.depth + 1)
  }

  /** Given the parent's exact rows, the new rows are the node's proper ancestors, each once. */
  lemma AncestorRowsExact(rows: set<Row>, p: Parents, node: NodeId, q: NodeId)
    requires node in p && p[node] == Some(q) && ExactAt(rows, p, q)
    ensures forall r: Row :: r in AncestorRows(rows, q, node) <==>
                             r.desc == node && r.depth > 0 && Up(p, node, r.depth) == Some(r.anc)
  {
    forall r: Row | r.desc == node && r.depth > 0 && Up(p, node, r.depth) == Some(r.anc)
      ensures r in AncestorRows(rows, q, node)
    {
      assert Row(r.anc, q, r.depth - 1) in rows;
    }
  }

  /** An insert that repeats no (ancestor, descendant) pair, of the table or of itself. */
  predicate Fits(created: set<Row>, rows: set<Row>) {
    UniquePairs(created) && forall r, s :: r in created && s in rows ==> !SamePair(r, s)
  }

  /** None of them repeats an (ancestor, descendant) pair of the table or of each other. */
  lemma AncestorRowsFit(rows: set<Row>, p: Parents, node: NodeId, q: NodeId)
    requires Grounded(p, node) && p[node] == Some(q) && ExactAt(rows, p, q)
    requires forall r :: r in rows && r.desc == node ==> r == Row(node, node, 0)
    ensures Fits(AncestorRows(rows, q, node), rows)
  {
    AncestorRowsExact(rows, p, node, q);
    forall r, s | r in AncestorRows(rows, q, node) && s in AncestorRows(rows, q, node) && SamePair(r, s)
      ensures r == s
    {
      DepthUnique(p, node, r.depth, s.depth);
    }
    forall r, s | r in AncestorRows(rows, q, node) && s in rows
      ensures !SamePair(r, s)
    {
      NoReturn(p, node, r.depth);
    }
  }

  lemma {:induction false} ShiftCount(from: set<Row>, q: NodeId, node: NodeId)
    requires forall r :: r in from ==> r.desc == q
    ensures |set r | r in from :: Row(r.anc, node, r.depth + 1)| == |from|
  {
    var image := set r | r in from :: Row(r.anc, node, r.depth + 1);
    if from == {} {
      assert image == {};
    } else {
      var x :| x in from;
      var rest := from - {x};
      ShiftCount(rest, q, node);
      assert Row(x.anc, node, x.depth + 1) !in (set r | r in rest :: Row(r.anc, node, r.depth + 1));
      assert image == (set r | r in rest :: Row(r.anc, node, r.depth + 1)) + {Row(x.anc, node, x.depth + 1)};
    }
  }

  lemma AncestorRowsCount(rows: set<Row>, q: NodeId, node: NodeId)
    ensures |AncestorRows(rows, q, node)| == |set r | r in rows && r.desc == q|
  {
    var from := set r | r in rows && r.desc == q;
    assert AncestorRows(rows, q, node) == set r | r in from :: Row(r.anc, node, r.depth + 1);
    ShiftCount(from, q, node);
  }

  function WithoutAncestors(rows: set<Row>, node: NodeId): set<Row> {
    set r | r in rows && !(r.desc == node && r.anc != node)
  }

  /** The rows a node gets from its parent's. */
  function NewRows(rows: set<Row>, p: Parents, node: NodeId): set<Row>
    requires node in p
  {
    if p[node].None? then {} else AncestorRows(rows, p[node].value, node)
  }

  // ---- What every history of saves and deletions keeps ----

  /** The table's constraints: both ends exist, no pair is repeated, and every node has its self-reference. */
  ghost predicate Formed(rows: set<Row>, p: Parents) {
    && UniquePairs(rows)
    && (forall r :: r in rows ==> r.anc in p && r.desc in p)
    && (forall d :: d in p ==> Row(d, d, 0) in rows)
  }

  /** Whatever cycles there are, the table is exact on every node whose climb ends. */
  ghost predicate Kept(rows: set<Row>, p: Parents) {
    Closed(p) && Formed(rows, p) && forall d :: Grounded(p, d) ==> ExactAt(rows, p, d)
  }

  /** On a forest that is all there is to ask for. */
  lemma KeptIsExactIff(rows: set<Row>, p: Parents)
    requires IsForest(p)
    ensures Kept(rows, p) <==> Exact(rows, p)
  {
    if Kept(rows, p) {
      forall d | d in p ensures ExactAt(rows, p, d) {
        assert Grounded(p, d);
      }
    }
    if Exact(rows, p) {
      ExactIsUnique(rows, p);
      forall d | d in p ensures Row(d, d, 0) in rows {
        ExactSelfRow(rows, p, d);
      }
      forall r | r in rows ensures r.anc in p {
        assert ExactAt(rows, p, r.desc);
        UpStays(p, r.desc, r.depth);
      }
    }
  }

  lemma OnlySelf(rows: set<Row>, p: Parents, node: NodeId)
    requires Formed(rows, p) && node in p
    ensures Formed(WithoutAncestors(rows, node), p)
    ensures forall r :: r in WithoutAncestors(rows, node) && r.desc == node <==> r == Row(node, node, 0)
  {
    forall r | r in WithoutAncestors(rows, node) && r.desc == node ensures r == Row(node, node, 0) {
      assert SamePair(r, Row(node, node, 0));
    }
  }

  lemma FormedInsert(rows: set<Row>, p: Parents, created: set<Row>)
    requires Formed(rows, p) && Fits(created, rows)
    requires forall r :: r in created ==> r.anc in p && r.desc in p
    ensures Formed(rows + created, p)
  {
    forall r, s | r in created && s in rows ensures !SamePair(s, r) {
      assert !SamePair(r, s);
    }
  }

  /** What relinking one node to its parent makes of the table, if its rows can be inserted. */
  function Relinked(rows: set<Row>, p: Parents, node: NodeId): set<Row>
    requires node in p
  {
    var cleared := WithoutAncestors(rows, node);
    if Fits(NewRows(cleared, p, node), cleared) then cleared + NewRows(cleared, p, node) else cleared
  }

  predicate CanRelink(rows: set<Row>, p: Parents, node: NodeId)
    requires node in p
  {
    Fits(NewRows(WithoutAncestors(rows, node), p, node), WithoutAncestors(rows, node))
  }

  lemma RelinkedFormed(rows: set<Row>, p: Parents, node: NodeId)
    requires Formed(rows, p) && node in p
    ensures Formed(Relinked(rows, p, node), p)
    ensures forall r: Row :: r.desc != node ==> (r in Relinked(rows, p, node) <==> r in rows)
  {
    OnlySelf(rows, p, node);
    var cleared := WithoutAncestors(rows, node);
    if CanRelink(rows, p, node) {
      FormedInsert(cleared, p, NewRows(cleared, p, node));
    }
  }

  /** A node under an exact parent whose climb ends can be relinked, and becomes exact. */
  lemma RelinkedExact(rows: set<Row>, p: Parents, node: NodeId)
    requires Formed(rows, p) && Grounded(p, node)
    requires p[node].Some? ==> ExactAt(rows, p, p[node].value)
    ensures CanRelink(rows, p, node) && ExactAt(Relinked(rows, p, node), p, node)
  {
    OnlySelf(rows, p, node);
    var cleared := WithoutAncestors(rows, node);
    var created := NewRows(cleared, p, node);
    if p[node].Some? {
      var q := p[node].value;
      assert Up(p, node, 1) == Some(q) by { assert Up(p, q, 0) == Some(q); }
      NoReturn(p, node, 1);
      assert ExactAt(cleared, p, q);
      AncestorRowsExact(cleared, p, node, q);
      AncestorRowsFit(cleared, p, node, q);
    }
    forall r: Row | r.desc == node
      ensures r in cleared + created <==> Up(p, node, r.depth) == Some(r.anc)
    {
      assert r in cleared <==> r == Row(node, node, 0);
      assert r.depth == 0 ==> (Up(p, node, r.depth) == Some(r.anc) <==> r == Row(node, node, 0));
    }
  }

  // ---- Deletion ----

  /** The distinct non-empty storage paths of the datasets on the given nodes. */
  ghost function PathsOf(storagePath: map<NodeId, string>, nodes: set<NodeId>): set<string> {
    set d | d in nodes && d in storagePath && storagePath[d] != "" :: storagePath[d]
  }

  /** The nodes whose rows name the given one as ancestor: what the index answers. */
  ghost function Indexed(rows: set<Row>, node: NodeId): set<NodeId> {
    set r | r in rows && r.anc == node :: r.desc
  }

  /** The query through the index names the files of the indexed nodes, no more and no fewer. */
  lemma CollectedPaths(rows: set<Row>, storagePath: map<NodeId, string>, node: NodeId, matching: set<Row>,
                       paths: seq<string>)
    requires matching == set r | r in rows && r.anc == node && r.desc in storagePath && storagePath[r.desc] != ""
    requires forall path :: path in paths <==> exists r :: r in matching && storagePath[r.desc] == path
    ensures Elements(paths) == PathsOf(storagePath, Indexed(rows, node))
  {
    forall path ensures path in paths <==> path in PathsOf(storagePath, Indexed(rows, node)) {
      if path in PathsOf(storagePath, Indexed(rows, node)) {
        var d :| d in Indexed(rows, node) && d in storagePath && storagePath[d] == path && path != "";
        var r :| r in rows && r.anc == node && r.desc == d;
        assert r in matching;
      }
      if path in paths {
        var r :| r in matching && storagePath[r.desc] == path;
        assert r.desc in Indexed(rows, node);
      }
    }
  }

  lemma LevelStaysBelow(p: Parents, node: NodeId, level: set<NodeId>, next: set<NodeId>)
    requires level <= Subtree(p, node)
    requires forall d :: d in next ==> d in p && p[d].Some? && p[d].value in level
    ensures next <= Subtree(p, node)
  {
    forall d | d in next
      ensures d in Subtree(p, node)
    {
      ChildInSubtree(p, p[d].value, d);
      SubtreeOfDescendant(p, node, p[d].value, d);
    }
  }

  lemma {:induction false} ClimbIntoClosedSet(p: Parents, node: NodeId, removed: set<NodeId>, d: NodeId, k: nat)
    requires Closed(p) && d in p && Up(p, d, k) == Some(node)
    requires node in removed
    requires forall a, c :: a in removed && c in Children(p, a) ==> c in removed
    ensures d in removed
    decreases k
  {
    if k > 0 {
      ClimbIntoClosedSet(p, node, removed, p[d].value, k - 1);
      assert d in Children(p, p[d].value);
    }
  }

  /** Anything that holds the node, is closed under children and stays below it is its subtree. */
  lemma ClosedSetIsSubtree(p: Parents, node: NodeId, removed: set<NodeId>)
    requires Closed(p)
    requires node in removed && removed <= Subtree(p, node)
    requires forall a, d :: a in removed && d in Children(p, a) ==> d in removed
    ensures removed == Subtree(p, node)
  {
    forall d | d in Subtree(p, node)
      ensures d in removed
    {
      var k: nat :| Up(p, d, k) == Some(node);
      ClimbIntoClosedSet(p, node, removed, d, k);
    }
  }

  lemma {:induction false} SurvivorClimb(p: Parents, node: NodeId, d: NodeId, k: nat)
    requires Closed(p) && d in p && !InSubtree(p, node, d)
    ensures Up(p - Subtree(p, node), d, k) == Up(p, d, k)
    ensures Up(p, d, k).Some? ==> Up(p, d, k).value !in Subtree(p, node)
    decreases k
  {
    if k > 0 && p[d].Some? {
      var a := p[d].value;
      if InSubtree(p, node, a) {
        assert d in Children(p, a);
        ChildInSubtree(p, a, d);
        SubtreeOfDescendant(p, node, a, d);
      }
      SurvivorClimb(p, node, a, k - 1);
    }
  }

  /** On a forest the index answers with the subtree. */
  lemma IndexedIsSubtree(rows: set<Row>, p: Parents, node: NodeId)
    requires IsForest(p) && Kept(rows, p) && node in p
    ensures Indexed(rows, node) == Subtree(p, node)
  {
    KeptIsExactIff(rows, p);
    forall d ensures d in Indexed(rows, node) <==> d in Subtree(p, node) {
      if d in p {
        IndexIsSubtree(rows, p, node, d);
      }
    }
  }

  /** With cycles about, the index of a node whose climb ends still names its whole subtree. It names
      nothing else exactly when no row that names the node is left on a node on or below a cycle. */
  lemma IndexedIsSubtreeIff(rows: set<Row>, p: Parents, node: NodeId)
    requires Kept(rows, p) && Grounded(p, node)
    ensures Subtree(p, node) <= Indexed(rows, node)
    ensures Indexed(rows, node) == Subtree(p, node) <==>
            forall r :: r in rows && r.anc == node ==> Grounded(p, r.desc)
  {
    forall d | d in Subtree(p, node) ensures d in Indexed(rows, node) && Grounded(p, d) {
      GroundedBelow(p, node, d);
      var k: nat :| Up(p, d, k) == Some(node);
      assert ExactAt(rows, p, d);
      assert Row(node, d, k) in rows;
    }
    forall r | r in rows && r.anc == node && Grounded(p, r.desc) ensures r.desc in Subtree(p, node) {
      assert ExactAt(rows, p, r.desc);
    }
    forall r | r in rows && r.anc == node ensures r.desc in Indexed(rows, node) {
    }
  }

  lemma {:induction false} TwoCycle(p: Parents, k: nat)
    requires 1 in p && 2 in p && p[1] == Some(2) && p[2] == Some(1)
    ensures Up(p, 1, k) == Some(1) || Up(p, 1, k) == Some(2)
    ensures Up(p, 2, k) == Some(1) || Up(p, 2, k) == Some(2)
  {
    if k > 0 {
      TwoCycle(p, k - 1);
    }
  }

  /** Nodes 0, 1 and 2 in a line; moving 1 under 2 is refused and leaves a cycle. Node 2 is then no longer
      below node 0, and still the index says so. */
  lemma StaleIndexCounterexample()
    ensures var p: Parents := map[0 := None, 1 := Some(2), 2 := Some(1)];
            var rows := {Row(0, 0, 0), Row(1, 1, 0), Row(2, 2, 0), Row(1, 2, 1), Row(0, 2, 2)};
            Kept(rows, p) && 2 in Indexed(rows, 0) && 2 !in Subtree(p, 0)
  {
    var p: Parents := map[0 := None, 1 := Some(2), 2 := Some(1)];
    var rows := {Row(0, 0, 0), Row(1, 1, 0), Row(2, 2, 0), Row(1, 2, 1), Row(0, 2, 2)};
    assert Row(0, 2, 2) in rows;
    forall k: nat ensures Up(p, 1, k) == Some(1) || Up(p, 1, k) == Some(2)
                  ensures Up(p, 2, k) == Some(1) || Up(p, 2, k) == Some(2)
    {
      TwoCycle(p, k);
    }
    forall r: Row | r.desc == 0 ensures r in rows <==> Up(p, 0, r.depth) == Some(r.anc) {
      assert r.depth > 0 ==> Up(p, 0, r.depth) == None;
    }
    assert ExactAt(rows, p, 0);
  }

  /** Cutting a whole subtree keeps the table, and leaves no new cycle. */
  lemma RemainingKept(p: Parents, rows: set<Row>, node: NodeId)
    requires Kept(rows, p) && node in p
    ensures var gone := Subtree(p, node);
            && Kept((set r | r in rows && r.anc !in gone && r.desc !in gone), p - gone)
            && (IsForest(p) ==> IsForest(p - gone))
  {
    var gone := Subtree(p, node);
    var p' := p - gone;
    var rows' := set r | r in rows && r.anc !in gone && r.desc !in gone;
    forall d | d in p'
      ensures p'[d].Some? ==> p'[d].value in p'
      ensures ReachesRoot(p', d) <==> ReachesRoot(p, d)
      ensures ReachesRoot(p, d) ==> ExactAt(rows', p', d)
    {
      forall k: nat
        ensures Up(p', d, k) == Up(p, d, k)
        ensures Up(p, d, k).Some? ==> Up(p, d, k).value !in gone
      {
        SurvivorClimb(p, node, d, k);
      }
      assert Up(p', d, 1) == Up(p, d, 1);
      if p[d].Some? {
        assert Up(p, d, 1) == Up(p, p[d].value, 0);
      }
      assert ReachesRoot(p, d) ==> ExactAt(rows, p, d) by { assert ReachesRoot(p, d) ==> Grounded(p, d); }
    }
  }

  // ---- One save ----

  lemma FreshMove(before: Parents, p: Parents, node: NodeId)
    requires IsForest(before) && node in p && p == before[node := p[node]]
    requires p[node].Some? ==> p[node].value in before && node !in before
    ensures IsForest(p) && (p[node].Some? ==> !InSubtree(before, node, p[node].value))
  {
    if p[node].Some? {
      FreshIsNotAbove(before, node, p[node].value);
    }
    MoveKeepsForest(before, node, p[node]);
  }

  /** A changed pointer keeps the forest exactly when it stays outside the node's own subtree; if it does
      not, the node is on a cycle. */
  lemma ForestIffOutside(before: Parents, p: Parents, node: NodeId)
    requires IsForest(before) && node in p && p == before[node := p[node]]
    requires p[node].Some? ==> p[node].value in before
    ensures IsForest(p) <==> p[node].None? || !InSubtree(before, node, p[node].value)
    ensures !IsForest(p) ==> OnCycle(p, node)
  {
    if p[node].Some? && node in before {
      var q := p[node].value;
      ReparentKeepsForestIff(before, node, q);
      if InSubtree(before, node, q) {
        MovedStillBelow(before, node, p[node], q);
        var k: nat :| Up(p, q, k) == Some(node);
        assert Up(p, node, k + 1) == Some(node);
      }
    } else {
      FreshMove(before, p, node);
    }
  }

  /** Under a parent in its own subtree, the node is among the parent's recorded ancestors. */
  lemma CycleMeetsSelfRow(rows: set<Row>, before: Parents, p: Parents, node: NodeId)
    requires IsForest(before) && Kept(rows, before)
    requires node in before && node in p && p == before[node := p[node]] && p[node].Some?
    requires InSubtree(before, node, p[node].value)
    ensures !CanRelink(rows, p, node) && Relinked(rows, p, node) == WithoutAncestors(rows, node)
  {
    var q := p[node].value;
    var k: nat :| Up(before, q, k) == Some(node);
    assert Grounded(before, q) && ExactAt(rows, before, q);
    if q == node && k > 0 {
      NoReturn(before, node, k);
    }
    var cleared := WithoutAncestors(rows, node);
    assert Row(node, q, k) in cleared;
    assert Row(node, node, k + 1) in NewRows(cleared, p, node) && Row(node, node, 0) in cleared;
    assert SamePair(Row(node, node, k + 1), Row(node, node, 0));
  }

  /** A new node's self-reference can be inserted. */
  lemma CreatedFits(start: set<Row>, before: Parents, node: NodeId)
    requires Kept(start, before) && node !in before
    ensures Fits({Row(node, node, 0)}, start)
  {
    forall s | s in start ensures !SamePair(Row(node, node, 0), s) {
      assert s.desc in before;
    }
  }

  lemma CreatedFormed(start: set<Row>, now: set<Row>, before: Parents, p: Parents, node: NodeId)
    requires Kept(start, before) && node !in before && node in p && p == before[node := p[node]]
    requires now == start + {Row(node, node, 0)}
    ensures Formed(now, p)
  {
    CreatedFits(start, before, node);
    forall r, s | r in now && s in now && SamePair(r, s) ensures r == s {
      assert r in start && s !in start ==> !SamePair(s, r);
      assert s in start && r !in start ==> !SamePair(r, s);
    }
  }

  /** Formedness looks at the nodes only, not at their pointers. */
  lemma FormedSameNodes(rows: set<Row>, p: Parents, p': Parents)
    requires Formed(rows, p) && p.Keys == p'.Keys
    ensures Formed(rows, p')
  {
    forall d ensures d in p <==> d in p' {
      assert d in p.Keys <==> d in p'.Keys;
    }
  }

  /** A new node can always be linked: its parent's rows repeat nothing and do not name it. */
  lemma CreatedLinks(start: set<Row>, now: set<Row>, before: Parents, p: Parents, node: NodeId)
    requires Kept(start, before) && node !in before && node in p && p == before[node := p[node]]
    requires p[node].Some? ==> p[node].value in before
    requires now == start + {Row(node, node, 0)}
    ensures WithoutAncestors(now, node) == now && CanRelink(now, p, node)
  {
    assert forall r :: r in start ==> r.anc in before && r.desc in before;
    if p[node].Some? {
      var q := p[node].value;
      var created := AncestorRows(now, q, node);
      forall r, s | r in created && s in created && SamePair(r, s) ensures r == s {
        assert SamePair(Row(r.anc, q, r.depth - 1), Row(s.anc, q, s.depth - 1));
      }
    }
  }

  lemma {:induction false} OffSubtreeClimb(before: Parents, p: Parents, node: NodeId, d: NodeId, k: nat)
    requires node in p && p == before[node := p[node]] && !Below(p, node, d)
    ensures Up(before, d, k) == Up(p, d, k)
    decreases k
  {
    assert Up(p, d, 0) != Some(node);
    if k > 0 && d in p && p[d].Some? {
      forall j: nat ensures Up(p, p[d].value, j) != Some(node) {
        assert Up(p, d, j + 1) == Up(p, p[d].value, j);
      }
      OffSubtreeClimb(before, p, node, p[d].value, k - 1);
    }
  }

  /** Nodes off the subtree of the saved one climb as they did before, and keep their rows. */
  lemma OffSubtreeKept(start: set<Row>, now: set<Row>, before: Parents, p: Parents, node: NodeId, d: NodeId)
    requires Kept(start, before) && node in p && p == before[node := p[node]]
    requires Grounded(p, d) && !Below(p, node, d)
    requires forall r: Row :: r.desc == d ==> (r in now <==> r in start)
    ensures ExactAt(now, p, d)
  {
    var q := if node in before then before[node] else None;
    forall k: nat ensures Up(before, d, k) == Up(p, d, k) {
      OffSubtreeClimb(before, p, node, d, k);
    }
    assert d in before && ReachesRoot(before, d) by {
      var end: nat :| Up(p, d, end).None?;
      assert Up(before, d, end).None?;
      assert Up(p, d, 0) != Some(node);
    }
    assert Grounded(before, d) && ExactAt(start, before, d);
  }

  /** The table after a save: exact in the node's subtree if the node's climb ends, untouched off it. */
  lemma SavedKept(start: set<Row>, now: set<Row>, before: Parents, p: Parents, node: NodeId)
    requires Kept(start, before) && Closed(p) && node in p && p == before[node := p[node]]
    requires Formed(now, p)
    requires Grounded(p, node) ==> forall d :: d in Subtree(p, node) ==> ExactAt(now, p, d)
    requires forall r: Row :: r.desc !in Subtree(p, node) ==> (r in now <==> r in start)
    ensures Kept(now, p)
  {
    forall d | Grounded(p, d) ensures ExactAt(now, p, d) {
      if InSubtree(p, node, d) {
        GroundedAbove(p, node, d);
      } else {
        OffSubtreeKept(start, now, before, p, node, d);
      }
    }
  }

  /** A grounded node's parent is off its subtree, and as exact as it was before the save. */
  lemma ParentExact(start: set<Row>, now: set<Row>, before: Parents, p: Parents, node: NodeId)
    requires Kept(start, before) && Grounded(p, node) && p == before[node := p[node]]
    requires forall r: Row :: r.desc != node ==> (r in now <==> r in start)
    ensures p[node].Some? ==> ExactAt(now, p, p[node].value)
  {
    if p[node].Some? {
      var q := p[node].value;
      assert node in Children(p, q);
      assert Up(p, node, 1) == Some(q) by { assert Up(p, q, 0) == Some(q); }
      ReachesRootAbove(p, node, 1);
      ParentNotBelowChild(p, q, node);
      SelfInSubtree(p, node);
      assert q != node;
      OffSubtreeKept(start, now, before, p, node, q);
    }
  }

  lemma ClosedMove(before: Parents, p: Parents, node: NodeId)
    requires Closed(before) && node in p && p == before[node := p[node]]
    requires p[node].Some? ==> p[node].value in before
    ensures Closed(p)
  {
  }

  lemma DropEntry(cache: map<NodeId, Option<NodeId>>, node: NodeId, entry: Option<NodeId>)
    ensures cache[node := entry] - {node} == cache - {node}
  {
  }

  lemma ForestIsGrounded(p: Parents, n: NodeId)
    requires IsForest(p) && n in p
    ensures Grounded(p, n)
  {
  }

  /** From a forest, a save under the node's own subtree fails at the first insert; any other save leaves
      a forest. */
  lemma SaveFromForest(rows: set<Row>, before: Parents, p: Parents, node: NodeId)
    requires IsForest(before) && Kept(rows, before)
    requires node in p && p == before[node := p[node]] && (p[node].Some? ==> p[node].value in before)
    ensures IsForest(p) <==> p[node].None? || !InSubtree(before, node, p[node].value)
    ensures !IsForest(p) ==>
              && node in before && p != before && !CanRelink(rows, p, node)
              && Relinked(rows, p, node) == WithoutAncestors(rows, node)
  {
    ForestIffOutside(before, p, node);
    if !IsForest(p) {
      if node !in before {
        FreshMove(before, p, node);
      }
      CycleMeetsSelfRow(rows, before, p, node);
    }
  }

  lemma LeafSubtree(p: Parents, node: NodeId)
    requires Closed(p) && node in p && Children(p, node) == {}
    ensures Subtree(p, node) == {node}
  {
    SelfInSubtree(p, node);
    forall d | d in Subtree(p, node) && d != node ensures false {
      var c := BelowSomeChild(p, node, d);
    }
  }

  /** The only node in the subtree of a new node is itself. */
  lemma NoChildrenYet(before: Parents, p: Parents, node: NodeId)
    requires Closed(before) && Closed(p) && node !in before && node in p && p == before[node := p[node]]
    requires p[node].Some? ==> p[node].value in before
    ensures Subtree(p, node) == {node}
  {
    forall c ensures c !in Children(p, node) {
      assert c in before && before[c].Some? ==> before[c].value in before;
    }
    LeafSubtree(p, node);
  }

  /** A new node is below nothing but its ancestors: linking it keeps the table. */
  lemma CreatedDone(start: set<Row>, now: set<Row>, before: Parents, p: Parents, node: NodeId)
    requires Kept(start, before) && Closed(p) && node !in before && node in p && p == before[node := p[node]]
    requires p[node].Some? ==> p[node].value in before
    requires now == start + {Row(node, node, 0)}
    ensures Kept(Relinked(now, p, node), p)
  {
    CreatedFormed(start, now, before, p, node);
    RelinkedFormed(now, p, node);
    if Grounded(p, node) {
      ParentExact(start, now, before, p, node);
      RelinkedExact(now, p, node);
    }
    NoChildrenYet(before, p, node);
    SavedKept(start, Relinked(now, p, node), before, p, node);
  }

  // ---- The rebuild ----

  /** d lies in the subtree of one of the nodes cs. */
  ghost predicate BelowOneOf(p: Parents, cs: set<NodeId>, d: NodeId) {
    exists c :: c in cs && InSubtree(p, c, d)
  }

  /** The parent of a is one of the nodes above, and not the last of them. */
  ghost predicate Linked(p: Parents, node: NodeId, above: set<NodeId>, a: NodeId)
    requires a in p
  {
    p[a].Some? && p[a].value in above && p[a] != Some(node)
  }

  /** The recursion has come from top to node through the nodes above, and every one of them has top
      among its recorded ancestors. */
  ghost predicate Chain(p: Parents, rows: set<Row>, node: NodeId, top: NodeId, above: set<NodeId>) {
    && node in above && top in above && above <= p.Keys
    && (forall a {:trigger Linked(p, node, above, a)} :: a in above && a != top ==> Linked(p, node, above, a))
    && (exists k: nat :: Row(top, node, k) in rows)
  }

  /** Coming back to a node of the chain is coming back to its top, and is refused. */
  lemma ChainCloses(p: Parents, rows: set<Row>, node: NodeId, top: NodeId, above: set<NodeId>, child: NodeId)
    requires Formed(rows, p) && Chain(p, rows, node, top, above)
    requires child in above && p[child] == Some(node)
    ensures !CanRelink(rows, p, child)
  {
    assert child == top || Linked(p, node, above, child);
    var k: nat :| Row(top, node, k) in rows;
    if node == top {
      assert SamePair(Row(top, top, k), Row(top, top, 0));
    }
    var cleared := WithoutAncestors(rows, child);
    assert Row(top, node, k) in cleared;
    assert Row(top, top, k + 1) in NewRows(cleared, p, child) && Row(top, top, 0) in cleared;
    assert SamePair(Row(top, top, k + 1), Row(top, top, 0));
  }

  lemma ChainGoesOn(p: Parents, rows: set<Row>, node: NodeId, top: NodeId, above: set<NodeId>, child: NodeId)
    requires Formed(rows, p) && Chain(p, rows, node, top, above)
    requires child in p && child !in above && p[child] == Some(node) && CanRelink(rows, p, child)
    ensures Chain(p, Relinked(rows, p, child), child, top, above + {child})
  {
    var k: nat :| Row(top, node, k) in rows;
    var cleared := WithoutAncestors(rows, child);
    assert Row(top, node, k) in cleared;
    assert Row(top, child, k + 1) in NewRows(cleared, p, child);
    assert Row(top, child, k + 1) in Relinked(rows, p, child);
    forall a | a in above + {child} && a != top
      ensures Linked(p, child, above + {child}, a)
    {
      assert a == child || Linked(p, node, above, a);
    }
  }

  /** A node that is exact and whose climb ends has no child on its chain. */
  lemma GroundedChain(p: Parents, rows: set<Row>, node: NodeId, top: NodeId, above: set<NodeId>, child: NodeId)
    requires Chain(p, rows, node, top, above) && Grounded(p, node) && ExactAt(rows, p, node)
    requires child in Children(p, node)
    ensures child !in above
  {
    if child in above {
      assert child == top || Linked(p, node, above, child);
      var k: nat :| Row(top, node, k) in rows;
      assert Row(top, node, k).desc == node;
      assert Up(p, node, k) == Some(child);
      assert InSubtree(p, child, node);
      ParentNotBelowChild(p, node, child);
    }
  }

  /** top is no proper descendant of n. */
  ghost predicate Clear(p: Parents, top: NodeId, n: NodeId) {
    forall k: nat :: k > 0 ==> Up(p, top, k) != Some(n)
  }

  lemma ChildOnClimb(p: Parents, d: NodeId, node: NodeId, k: nat) returns (c: NodeId)
    requires Closed(p) && d in p && k > 0 && Up(p, d, k) == Some(node)
    ensures c in Children(p, node) && Up(p, d, k - 1) == Some(c)
  {
    UpAdd(p, d, k - 1, 1);
    c := Up(p, d, k - 1).value;
    UpStays(p, d, k - 1);
    assert Up(p, c, 1) == Some(node);
    assert p[c].Some? && Up(p, p[c].value, 0) == Some(node);
  }

  /** If top is neither a child of the node nor below one, it is not below the node. */
  lemma ClearAbove(p: Parents, top: NodeId, node: NodeId)
    requires Closed(p) && top in p
    requires forall c :: c in Children(p, node) ==> c != top && Clear(p, top, c)
    ensures Clear(p, top, node)
  {
    forall k: nat | k > 0 ensures Up(p, top, k) != Some(node) {
      if Up(p, top, k) == Some(node) {
        var c := ChildOnClimb(p, top, node, k);
      }
    }
  }

  lemma ExtendDone(before: set<Row>, now: set<Row>, p: Parents, node: NodeId,
                   done: set<NodeId>, child: NodeId)
    requires Grounded(p, node)
    requires done <= Children(p, node) && child in Children(p, node) && child !in done
    requires forall d :: d in p && BelowOneOf(p, done, d) ==> ExactAt(before, p, d)
    requires forall d :: d in Subtree(p, child) ==> ExactAt(now, p, d)
    requires forall r: Row :: r.desc != child && r.desc !in Subtree(p, child) ==> (r in now <==> r in before)
    ensures forall d :: d in p && BelowOneOf(p, done + {child}, d) ==> ExactAt(now, p, d)
  {
    SelfInSubtree(p, child);
    forall d | d in p && BelowOneOf(p, done + {child}, d)
      ensures ExactAt(now, p, d)
    {
      if d !in Subtree(p, child) {
        assert BelowOneOf(p, done, d);
        assert ExactAt(before, p, d);
      }
    }
  }

  lemma SubtreesInside(p: Parents, node: NodeId, child: NodeId)
    requires child in Children(p, node)
    ensures child in Subtree(p, node) && Subtree(p, child) <= Subtree(p, node)
  {
    ChildInSubtree(p, node, child);
    forall d | d in Subtree(p, child) ensures d in Subtree(p, node) {
      SubtreeOfDescendant(p, node, child, d);
    }
  }

  /** All children done is all of the subtree done. */
  lemma AllDone(rows: set<Row>, p: Parents, node: NodeId)
    requires Closed(p) && ExactAt(rows, p, node)
    requires forall d :: d in p && BelowOneOf(p, Children(p, node), d) ==> ExactAt(rows, p, d)
    ensures forall d :: d in Subtree(p, node) ==> ExactAt(rows, p, d)
  {
    forall d | d in Subtree(p, node) ensures ExactAt(rows, p, d) {
      if d != node {
        var c := BelowSomeChild(p, node, d);
        assert BelowOneOf(p, Children(p, node), d);
      }
    }
  }

  class Store {
    /** `DatasetNode.parent`, one entry per node. */
    var parent: Parents
    /** The `DatasetClosure` table. */
    var rows: set<Row>
    /** `Dataset.cloud_storage_path` of the nodes that have a dataset. */
    var storagePath: map<NodeId, string>
    /** The module-level `_old_parent_cache`. */
    var oldParentCache: map<NodeId, Option<NodeId>>

    /** What every history of saves and deletions keeps, refused saves included. */
    ghost predicate Sane()
      reads this
    {
      Kept(rows, parent) && storagePath.Keys <= parent.Keys
    }

    /** The pointers form a forest and the table is exact. */
    ghost predicate Valid()
      reads this
    {
      IsForest(parent) && Exact(rows, parent) && storagePath.Keys <= parent.Keys
    }

    lemma ValidIffSane()
      requires IsForest(parent)
      ensures Valid() <==> Sane()
    {
      KeptIsExactIff(rows, parent);
    }

    constructor ()
      ensures Valid() && parent == map[] && storagePath == map[] && oldParentCache == map[]
    {
      parent, rows, storagePath, oldParentCache := map[], {}, map[], map[];
    }

    /** An insert into the table; the database refuses a repeated (ancestor, descendant) pair, and then
        inserts nothing. */
    method BulkCreate(created: set<Row>) returns (ok: bool)
      modifies this`rows
      ensures ok <==> Fits(created, old(rows))
      ensures rows == if ok then old(rows) + created else old(rows)
    {
      ok := Fits(created, rows);
      if ok {
        rows := rows + created;
      }
    }

    /** Returns the number of rows created, or `None` where the insert raises. */
    method CreateAncestorClosures(node: NodeId) returns (count: Option<nat>)
      requires node in parent
      modifies this`rows
      ensures var created := NewRows(old(rows), parent, node);
              && (count.None? <==> !Fits(created, old(rows)))
              && (count.Some? ==> count == Some(|created|) && rows == old(rows) + created)
              && (count.None? ==> rows == old(rows))
      ensures count.Some? && parent[node].Some? ==>
                count == Some(|set r | r in old(rows) && r.desc == parent[node].value|)
    {
      if parent[node].None? {
        return Some(0);
      }
      var q := parent[node].value;
      var created := AncestorRows(rows, q, node);
      AncestorRowsCount(rows, q, node);
      var ok := BulkCreate(created);
      if !ok {
        return None;
      }
      count := Some(|created|);
    }

    /** Deletes every row of the node as descendant, except its self-reference. */
    method DeleteProperAncestorRows(node: NodeId)
      requires Formed(rows, parent) && node in parent
      modifies this`rows
      ensures rows == WithoutAncestors(old(rows), node) && Formed(rows, parent)
      ensures forall r :: r in rows && r.desc == node <==> r == Row(node, node, 0)
      ensures forall r: Row :: r.desc != node ==> (r in rows <==> r in old(rows))
    {
      OnlySelf(rows, parent, node);
      rows := WithoutAncestors(rows, node);
    }

    /** The two steps a moved node and every rebuilt child go through. */
    method Relink(node: NodeId) returns (ok: bool)
      requires Formed(rows, parent) && node in parent
      modifies this`rows
      ensures ok <==> CanRelink(old(rows), parent, node)
      ensures rows == Relinked(old(rows), parent, node) && Formed(rows, parent)
      ensures forall r: Row :: r.desc != node ==> (r in rows <==> r in old(rows))
      ensures Grounded(parent, node) && (parent[node].Some? ==> ExactAt(old(rows), parent, parent[node].value)) ==>
                ok && ExactAt(rows, parent, node)
    {
      RelinkedFormed(rows, parent, node);
      if Grounded(parent, node) && (parent[node].Some? ==> ExactAt(rows, parent, parent[node].value)) {
        RelinkedExact(rows, parent, node);
      }
      DeleteProperAncestorRows(node);
      var count := CreateAncestorClosures(node);
      ok := count.Some?;
    }

    /** Returns whether it gets through. It always terminates: below a node whose climb ends the recursion
        visits each node of the subtree once, gets through, and leaves all of them exact; on a cycle it
        comes back to where it started and is refused there. Rows outside the subtree stay. */
    method RebuildDescendantClosures(node: NodeId, ghost top: NodeId, ghost above: set<NodeId>) returns (ok: bool)
      requires Closed(parent) && Formed(rows, parent) && node in parent
      requires Chain(parent, rows, node, top, above)
      modifies this`rows
      ensures Formed(rows, parent)
      ensures forall r: Row :: r.desc !in Subtree(parent, node) ==> (r in rows <==> r in old(rows))
      ensures Grounded(parent, node) && ExactAt(old(rows), parent, node) ==>
                ok && forall d :: d in Subtree(parent, node) ==> ExactAt(rows, parent, d)
      ensures ok ==> Clear(parent, top, node)
      ensures ok ==> forall r: Row :: r.desc in above ==> (r in rows <==> r in old(rows))
      decreases parent.Keys - above
    {
      ghost var p := parent;
      ghost var good := Grounded(p, node) && ExactAt(rows, p, node);
      ghost var done: set<NodeId> := {};
      var children := set c | c in parent && parent[c] == Some(node);
      assert children == Children(p, node);
      while children != {}
        invariant children <= Children(p, node) && done == Children(p, node) - children
        invariant Formed(rows, p)
        invariant forall r: Row :: r.desc in above ==> (r in rows <==> r in old(rows))
        invariant forall r: Row :: r.desc !in Subtree(p, node) ==> (r in rows <==> r in old(rows))
        invariant forall c :: c in done ==> c != top && Clear(p, top, c)
        invariant good ==> forall d :: d in p && BelowOneOf(p, done, d) ==> ExactAt(rows, p, d)
        decreases children
      {
        var child :| child in children;
        ok := RebuildChild(node, child, top, above, good, done);
        if !ok {
          return;
        }
        done, children := done + {child}, children - {child};
      }
      assert done == Children(p, node);
      ClearAbove(p, top, node);
      if good {
        AllDone(rows, p, node);
      }
      ok := true;
    }

    /** The body of the loop: relink the child, then rebuild below it. */
    method RebuildChild(node: NodeId, child: NodeId, ghost top: NodeId, ghost above: set<NodeId>,
                        ghost good: bool, ghost done: set<NodeId>) returns (ok: bool)
      requires Closed(parent) && Formed(rows, parent) && child in Children(parent, node)
      requires Chain(parent, rows, node, top, above)
      requires good ==> Grounded(parent, node) && ExactAt(rows, parent, node)
      requires done <= Children(parent, node) && child !in done
      requires good ==> forall d :: d in parent && BelowOneOf(parent, done, d) ==> ExactAt(rows, parent, d)
      modifies this`rows
      ensures Formed(rows, parent)
      ensures forall r: Row :: r.desc !in Subtree(parent, node) ==> (r in rows <==> r in old(rows))
      ensures good ==>
                ok && forall d :: d in parent && BelowOneOf(parent, done + {child}, d) ==> ExactAt(rows, parent, d)
      ensures ok ==> child != top && Clear(parent, top, child)
      ensures ok ==> forall r: Row :: r.desc in above ==> (r in rows <==> r in old(rows))
      decreases parent.Keys - above, 0
    {
      ghost var before := rows;
      SubtreesInside(parent, node, child);
      if good {
        GroundedChain(parent, rows, node, top, above, child);
        ChildSubtreeSmaller(parent, node, child);
      }
      if child in above {
        ChainCloses(parent, rows, node, top, above, child);
      } else if CanRelink(rows, parent, child) {
        ChainGoesOn(parent, rows, node, top, above, child);
      }
      ok := Relink(child);
      if !ok {
        return;
      }
      ok := RebuildDescendantClosures(child, top, above + {child});
      if good {
        ExtendDone(before, rows, parent, node, done, child);
      }
    }

    /** The `pre_save` signal: remember the stored parent, or null for an unsaved node. */
    method CacheOldParent(node: NodeId)
      modifies this`oldParentCache
      ensures oldParentCache == old(oldParentCache)[node := if node in parent then parent[node] else None]
    {
      if node in parent {
        oldParentCache := oldParentCache[node := parent[node]];
      } else {
        oldParentCache := oldParentCache[node := None];
      }
    }

    method LinkCreated(node: NodeId, ghost before: Parents)
      requires Kept(rows, before) && Closed(parent)
      requires node in parent && node !in before && parent == before[node := parent[node]]
      requires parent[node].Some? ==> parent[node].value in before
      modifies this`rows
      ensures Kept(rows, parent)
    {
      ghost var start := rows;
      CreatedFits(start, before, node);
      var self := BulkCreate({Row(node, node, 0)});
      assert self;
      CreatedLinks(start, rows, before, parent, node);
      CreatedDone(start, rows, before, parent, node);
      var count := CreateAncestorClosures(node);
      assert count.Some?;
    }

    method MoveNode(node: NodeId, ghost before: Parents) returns (ok: bool)
      requires Kept(rows, before) && Closed(parent)
      requires node in parent && node in before && parent == before[node := parent[node]]
      modifies this`rows
      ensures Kept(rows, parent)
      ensures Grounded(parent, node) ==> ok
      ensures OnCycle(parent, node) ==> !ok
      ensures !CanRelink(old(rows), parent, node) ==> !ok && rows == Relinked(old(rows), parent, node)
    {
      ghost var start := rows;
      FormedSameNodes(start, before, parent);
      SelfInSubtree(parent, node);
      if Grounded(parent, node) {
        ParentExact(start, start, before, parent, node);
      }
      ok := Relink(node);
      if ok {
        assert Row(node, node, 0) in rows;
        ok := RebuildDescendantClosures(node, node, {node});
      }
      SavedKept(start, rows, before, parent, node);
    }

    /** The `post_save` signal, on a table kept for the pointers before the save. It keeps the table for the
        saved ones, whether or not it gets through. It gets through for a new node, for an unchanged
        parent, and for a node whose climb ends; it raises for a moved node that is now on a cycle, and
        then the remembered parent is left behind. */
    method MaintainTransitiveClosure(node: NodeId, created: bool, ghost before: Parents) returns (ok: bool)
      requires Kept(rows, before) && Closed(parent)
      requires node in parent && parent == before[node := parent[node]]
      requires parent[node].Some? ==> parent[node].value in before
      requires created <==> node !in before
      requires node in oldParentCache && (!created ==> oldParentCache[node] == before[node])
      modifies this`rows, this`oldParentCache
      ensures Kept(rows, parent)
      ensures created || parent == before || Grounded(parent, node) ==> ok
      ensures !created && parent != before && OnCycle(parent, node) ==> !ok
      ensures !created && parent == before ==> rows == old(rows)
      ensures !created && parent != before && !CanRelink(old(rows), parent, node) ==>
                !ok && rows == Relinked(old(rows), parent, node)
      ensures oldParentCache == if ok then old(oldParentCache) - {node} else old(oldParentCache)
    {
      if created {
        LinkCreated(node, before);
        oldParentCache := oldParentCache - {node};
        return true;
      }
      var oldParent := oldParentCache[node];
      ok := true;
      if oldParent != parent[node] {
        ok := MoveNode(node, before);
      } else {
        assert parent == before;
      }
      if ok {
        oldParentCache := oldParentCache - {node};
      }
    }

    /** Saves a new node, or an existing one with any existing parent, in any state that earlier saves may
        have left. Nothing keeps a node out of its own subtree: such a save raises, at the table's unique
        constraint, after the pointer is stored. So from a forest it succeeds exactly when the new parent
        is outside the subtree. Saving the same parent again always succeeds and changes nothing. And any
        save that leaves no cycle succeeds and makes the table exact, whatever was refused before. */
    method Save(node: NodeId, newParent: Option<NodeId>) returns (ok: bool)
      requires Sane()
      requires newParent.Some? ==> newParent.value in parent
      modifies this
      ensures Sane()
      ensures parent == old(parent)[node := newParent] && storagePath == old(storagePath)
      ensures old(IsForest(parent)) ==>
                && (ok <==> newParent.None? || !InSubtree(old(parent), node, newParent.value))
                && (!ok ==> !IsForest(parent) && rows == WithoutAncestors(old(rows), node))
      ensures IsForest(parent) ==> ok && Valid()
      ensures old(parent) == parent ==> ok && rows == old(rows)
      ensures node !in old(parent) || Grounded(parent, node) ==> ok
      ensures old(parent) != parent && node in old(parent) && OnCycle(parent, node) ==> !ok
      ensures oldParentCache == if ok then old(oldParentCache) - {node}
                                else old(oldParentCache)[node := old(parent)[node]]
    {
      ghost var before, cache := parent, oldParentCache;
      CacheOldParent(node);
      DropEntry(cache, node, oldParentCache[node]);
      var created := node !in parent;
      parent := parent[node := newParent];
      ClosedMove(before, parent, node);
      if IsForest(before) {
        SaveFromForest(rows, before, parent, node);
      }
      ok := MaintainTransitiveClosure(node, created, before);
      if IsForest(parent) {
        ForestIsGrounded(parent, node);
        ValidIffSane();
      }
    }

    /** Deletes a node as the database does: everything that reaches it along `parent`, level by
        level, then the closure rows at either end and the datasets of the deleted nodes. */
    method CascadeDelete(node: NodeId) returns (removed: set<NodeId>)
      requires Sane() && node in parent
      modifies this`parent, this`rows, this`storagePath
      ensures removed == Subtree(old(parent), node)
      ensures parent == old(parent) - removed
      ensures storagePath == old(storagePath) - removed
      ensures Sane() && (old(Valid()) ==> Valid())
    {
      ghost var start := parent;
      removed := {node};
      var level := {node};
      SelfInSubtree(parent, node);
      while level != {}
        invariant node in removed && level <= removed <= Subtree(parent, node)
        invariant forall a, d :: a in removed - level && d in Children(parent, a) ==> d in removed
        modifies {}
        decreases Subtree(parent, node) - removed, level
      {
        var next := set d | d in parent && parent[d].Some? && parent[d].value in level && d !in removed;
        LevelStaysBelow(parent, node, level, next);
        level, removed := next, removed + next;
      }
      ClosedSetIsSubtree(parent, node, removed);
      RemainingKept(parent, rows, node);
      rows := set r | r in rows && r.anc !in removed && r.desc !in removed;
      parent := parent - removed;
      storagePath := storagePath - removed;
      if IsForest(start) {
        ValidIffSane();
      }
    }

    /** The query through the index, each path once. */
    method CollectPaths(node: NodeId) returns (storagePaths: seq<string>)
      ensures Distinct(storagePaths)
      ensures Elements(storagePaths) == PathsOf(storagePath, Indexed(rows, node))
    {
      var matching := set r | r in rows && r.anc == node && r.desc in storagePath && storagePath[r.desc] != "";
      ghost var all := matching;
      storagePaths := [];
      while matching != {}
        invariant matching <= all
        invariant Distinct(storagePaths)
        invariant forall path :: path in storagePaths <==>
                                 exists r :: r in all - matching && storagePath[r.desc] == path
        decreases matching
      {
        var r :| r in matching;
        ghost var seen := storagePaths;
        if storagePath[r.desc] !in storagePaths {
          storagePaths := storagePaths + [storagePath[r.desc]];
        }
        forall path
          ensures path in storagePaths <==>
                  exists s :: s in all - (matching - {r}) && storagePath[s.desc] == path
        {
          assert path in storagePaths <==> path in seen || path == storagePath[r.desc];
          assert r in all - (matching - {r});
        }
        matching := matching - {r};
      }
      CollectedPaths(rows, storagePath, node, all, storagePaths);
    }

    /** Returns the object-storage paths handed to the cleanup that runs on commit: those of the datasets
        the index names. On a forest these are the datasets the cascade removes. */
    method Destroy(node: NodeId) returns (storagePaths: seq<string>)
      requires Sane() && node in parent
      modifies this`parent, this`rows, this`storagePath
      ensures Distinct(storagePaths)
      ensures Elements(storagePaths) == PathsOf(old(storagePath), Indexed(old(rows), node))
      ensures old(Valid()) ==> Elements(storagePaths) == PathsOf(old(storagePath), Subtree(old(parent), node))
      ensures parent == old(parent) - Subtree(old(parent), node)
      ensures storagePath == old(storagePath) - Subtree(old(parent), node)
      ensures Sane() && (old(Valid()) ==> Valid())
    {
      if Valid() {
        IndexedIsSubtree(rows, parent, node);
      }
      storagePaths := CollectPaths(node);
      var _ := CascadeDelete(node);
    }
  }
}
