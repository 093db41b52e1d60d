/** The two small shapes every other module shares: an optional value, and facts about sequences
    without repetition. */
module Wrappers {

  datatype Option<+T> = None | Some(value: T)
}

module Sequences {

  /** No element occurs twice. */
  ghost predicate Distinct<T>(s: seq<T>) {
    forall i, j :: 0 <= i < j < |s| ==> s[i] != s[j]
  }

  ghost function Elements<T>(s: seq<T>): set<T> {
    set x | x in s
  }

  lemma {:induction false} DistinctCardinality<T>(s: seq<T>)
    requires Distinct(s)
    ensures |Elements(s)| == |s|
  {
    if s != [] {
      var init, last := s[..|s| - 1], s[|s| - 1];
      DistinctCardinality(init);
      assert s == init + [last];
      assert last !in init;
      assert Elements(s) == Elements(init) + {last};
    } else {
      assert Elements(s) == {};
    }
  }

  lemma SubsetCardinality<T>(a: set<T>, b: set<T>)
    requires a <= b
    ensures |a| <= |b|
    ensures |a| == |b| ==> a == b
  {
    assert b == a + (b - a);
    assert |b| == |a| + |b - a|;
  }

  /** The pigeonhole principle: more positions than values means some value is repeated. */
  lemma Pigeonhole<T>(s: seq<T>, values: set<T>)
    requires forall x :: x in s ==> x in values
    requires |s| > |values|
    ensures exists i, j :: 0 <= i < j < |s| && s[i] == s[j]
  {
    if Distinct(s) {
      DistinctCardinality(s);
      assert Elements(s) <= values;
      SubsetCardinality(Elements(s), values);
    }
  }

  /** A repetition-free sequence drawn from another one of the same length is a permutation of it. */
  lemma DistinctPermutation<T>(a: seq<T>, b: seq<T>)
    requires Distinct(a) && Distinct(b)
    requires |a| == |b|
    requires forall x :: x in a ==> x in b
    ensures Elements(a) == Elements(b)
  {
    DistinctCardinality(a);
    DistinctCardinality(b);
    assert Elements(a) <= Elements(b);
    SubsetCardinality(Elements(a), Elements(b));
  }

  /** A non-empty finite set has an element of least key. */
  lemma {:induction false} LeastExists<T>(s: set<T>, key: T -> int)
    requires s != {}
    ensures exists x :: x in s && forall y :: y in s ==> key(x) <= key(y)
  {
    var x :| x in s;
    if s != {x} {
      LeastExists(s - {x}, key);
      var m :| m in s - {x} && forall y :: y in s - {x} ==> key(m) <= key(y);
      var least := if key(x) <= key(m) then x else m;
      assert forall y :: y in s ==> y == x || y in s - {x};
      assert least in s && forall y :: y in s ==> key(least) <= key(y);
    }
  }
}
