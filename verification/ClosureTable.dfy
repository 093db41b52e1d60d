/** The `DatasetClosure` table as a set of rows, and what it means for it to index a forest. */
module ClosureTable {
  import opened Wrappers
  import opened Forest

  datatype Row = Row(anc: NodeId, desc: NodeId, depth: nat)

  predicate SamePair(r: Row, s: Row) {
    r.anc == s.anc && r.desc == s.desc
  }

  /** The table constraint `unique_together = (ancestor, descendant)`. */
  predicate UniquePairs(rows: set<Row>) {
    forall r, s :: r in rows && s in rows && SamePair(r, s) ==> r == s
  }

  /** The rows whose descendant is d are exactly d's climb: the k-th parent at depth k. */
  ghost predicate ExactAt(rows: set<Row>, p: Parents, d: NodeId) {
    forall r: Row {:trigger r in rows} :: r.desc == d ==> (r in rows <==> Up(p, d, r.depth) == Some(r.anc))
  }

  /** The table is { (a, d, k) : a is the k-th parent of d, k >= 0 }, d ranging over the nodes. */
  ghost predicate Exact(rows: set<Row>, p: Parents) {
    && (forall r :: r in rows ==> r.desc in p)
    && (forall d :: d in p ==> ExactAt(rows, p, d))
  }

  /** d's only row naming d on both sides is the self-reference at depth 0. */
  ghost predicate SelfRow(rows: set<Row>, d: NodeId) {
    Row(d, d, 0) in rows && forall r :: r in rows && r.desc == d && r.anc == d ==> r.depth == 0
  }

  /** An exact table meets the unique constraint. */
  lemma ExactIsUnique(rows: set<Row>, p: Parents)
    requires IsForest(p) && Exact(rows, p)
    ensures UniquePairs(rows)
  {
    forall r, s | r in rows && s in rows && SamePair(r, s)
      ensures r == s
    {
      DepthUnique(p, r.desc, r.depth, s.depth);
    }
  }

  /** Exactness leaves no freedom: two exact tables over the same pointers are the same table. */
  lemma ExactDetermines(rows: set<Row>, rows': set<Row>, p: Parents)
    requires Exact(rows, p) && Exact(rows', p)
    ensures rows == rows'
  {
    forall r: Row ensures r in rows <==> r in rows' {
      if r.desc in p {
        assert ExactAt(rows, p, r.desc) && ExactAt(rows', p, r.desc);
      }
    }
  }

  lemma ExactSelfRow(rows: set<Row>, p: Parents, d: NodeId)
    requires Grounded(p, d) && ExactAt(rows, p, d)
    ensures SelfRow(rows, d)
  {
    assert Up(p, d, 0) == Some(d);
    assert Row(d, d, 0).desc == d;
    forall r | r in rows && r.desc == d && r.anc == d
      ensures r.depth == 0
    {
      if r.depth > 0 {
        NoReturn(p, d, r.depth);
      }
    }
  }

  /** The index answers "descendants of n" with the parent pointers' subtree of n. */
  lemma IndexIsSubtree(rows: set<Row>, p: Parents, n: NodeId, d: NodeId)
    requires Exact(rows, p) && d in p
    ensures (exists r :: r in rows && r.anc == n && r.desc == d) <==> InSubtree(p, n, d)
  {
    assert ExactAt(rows, p, d);
    if InSubtree(p, n, d) {
      var k: nat :| Up(p, d, k) == Some(n);
      assert Row(n, d, k) in rows;
    }
  }

  /** A fresh node is below nothing yet. */
  lemma FreshIsNotAbove(p: Parents, n: NodeId, d: NodeId)
    requires Closed(p) && n !in p && d in p
    ensures !Below(p, n, d)
  {
    forall k: nat ensures Up(p, d, k) != Some(n) {
      UpStays(p, d, k);
    }
  }
}
