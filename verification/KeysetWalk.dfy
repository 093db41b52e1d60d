/** Following cursors through pages, whatever the items and cursors are: when does the walk show a
    given list of rows exactly once, in order? */
module KeysetWalk {
  import opened Wrappers
  import opened Sequences

  datatype Page<T, C> = Page(items: seq<T>, next: Option<C>)

  /** The pages a client sees that starts from the given cursor and follows `next` to its end. */
  ghost predicate Follows<T, C>(fetch: Option<C> -> Page<T, C>, cursor: Option<C>, pages: seq<seq<T>>)
    decreases |pages|
  {
    && pages != []
    && pages[0] == fetch(cursor).items
    && if fetch(cursor).next.None? then |pages| == 1 else Follows(fetch, fetch(cursor).next, pages[1..])
  }

  ghost function Concat<T>(pages: seq<seq<T>>): seq<T> {
    if pages == [] then [] else pages[0] + Concat(pages[1..])
  }

  /** The page of `size` rows that starts at row k; its cursor names its last row. */
  ghost function PageAt<T, C>(rows: seq<T>, k: nat, size: nat, cursorOf: T -> C): Page<T, C>
    requires k <= |rows| && size >= 1
  {
    if k + size < |rows| then Page(rows[k..k + size], Some(cursorOf(rows[k + size - 1]))) else Page(rows[k..], None)
  }

  /** A walk from the given cursor that shows the rows. */
  ghost predicate Shows<T(!new), C>(fetch: Option<C> -> Page<T, C>, cursor: Option<C>, rows: seq<T>) {
    exists pages :: Follows(fetch, cursor, pages) && Concat(pages) == rows
  }

  ghost predicate FetchesAt<T, C>(fetch: Option<C> -> Page<T, C>, rows: seq<T>, size: nat, cursorOf: T -> C,
                                  i: nat, k: nat)
    requires size >= 1 && 1 <= i <= |rows|
  {
    k <= |rows| && fetch(Some(cursorOf(rows[i - 1]))) == PageAt(rows, k, size, cursorOf)
  }

  /** Every fetch yields a page of the rows: the first from row 0, and the one for the cursor of
      row i - 1 from row start(i). */
  ghost predicate Fetches<T, C>(fetch: Option<C> -> Page<T, C>, rows: seq<T>, size: nat, cursorOf: T -> C,
                                start: nat -> nat)
    requires size >= 1
  {
    && fetch(None) == PageAt(rows, 0, size, cursorOf)
    && forall i: nat :: 1 <= i < |rows| ==> FetchesAt(fetch, rows, size, cursorOf, i, start(i))
  }

  /** Something holds of every row, after row k, at which a page starts. */
  ghost predicate AtCuts(ok: nat -> bool, k: nat, size: nat, n: nat)
    requires size >= 1
    decreases n - k
  {
    k + size >= n || (ok(k + size) && AtCuts(ok, k + size, size, n))
  }

  lemma {:induction false} SameAtCuts(ok: nat -> bool, ok': nat -> bool, k: nat, size: nat, n: nat)
    requires size >= 1 && forall i: nat :: 1 <= i < n ==> ok(i) == ok'(i)
    ensures AtCuts(ok, k, size, n) == AtCuts(ok', k, size, n)
    decreases n - k
  {
    if k + size < n {
      SameAtCuts(ok, ok', k + size, size, n);
    }
  }

  lemma {:induction false} EverywhereIsAtCuts(ok: nat -> bool, k: nat, size: nat, n: nat)
    requires size >= 1 && forall i: nat :: 1 <= i < n ==> ok(i)
    ensures AtCuts(ok, k, size, n)
    decreases n - k
  {
    if k + size < n {
      EverywhereIsAtCuts(ok, k + size, size, n);
    }
  }

  /** The cursor of row i - 1 leads to row i. */
  ghost function Exact(start: nat -> nat): nat -> bool {
    (i: nat) => start(i) == i
  }

  function PageCount(n: nat, size: nat): nat
    requires size >= 1
  {
    if n <= size then 1 else 1 + PageCount(n - size, size)
  }

  lemma SplitAt<T>(rows: seq<T>, k: nat, cut: nat)
    requires k <= cut <= |rows|
    ensures rows[k..] == rows[k..cut] + rows[cut..]
  {
  }

  /** At every page boundary from row k on, the cursor leads to the next row. */
  ghost predicate CursorsLead<T, C>(fetch: Option<C> -> Page<T, C>, rows: seq<T>, k: nat, size: nat, cursorOf: T -> C)
    requires size >= 1
    decreases |rows| - k
  {
    k + size >= |rows| ||
    (&& fetch(Some(cursorOf(rows[k + size - 1]))) == PageAt(rows, k + size, size, cursorOf)
     && CursorsLead(fetch, rows, k + size, size, cursorOf))
  }

  lemma {:induction false} ExactCutsLead<T, C>(fetch: Option<C> -> Page<T, C>, rows: seq<T>, k: nat, size: nat,
                                               cursorOf: T -> C, start: nat -> nat)
    requires size >= 1 && Fetches(fetch, rows, size, cursorOf, start)
    requires AtCuts(Exact(start), k, size, |rows|)
    ensures CursorsLead(fetch, rows, k, size, cursorOf)
    decreases |rows| - k
  {
    if k + size < |rows| {
      assert FetchesAt(fetch, rows, size, cursorOf, k + size, start(k + size));
      ExactCutsLead(fetch, rows, k + size, size, cursorOf, start);
    }
  }

  lemma OneMorePage(n: nat, m: nat, size: nat)
    requires size >= 1 && n == m + size && m > 0
    ensures PageCount(n, size) == 1 + PageCount(m, size)
  {
    assert n - size == m;
  }

  lemma PrependPage<T, C>(fetch: Option<C> -> Page<T, C>, cursor: Option<C>, rows: seq<T>, k: nat, size: nat,
                          cursorOf: T -> C, rest: seq<seq<T>>) returns (pages: seq<seq<T>>)
    requires size >= 1 && k + size < |rows|
    requires fetch(cursor) == PageAt(rows, k, size, cursorOf)
    requires Follows(fetch, Some(cursorOf(rows[k + size - 1])), rest) && Concat(rest) == rows[k + size..]
    ensures Follows(fetch, cursor, pages) && Concat(pages) == rows[k..]
    ensures |pages| == 1 + |rest|
  {
    pages := [rows[k..k + size]] + rest;
    assert pages[1..] == rest;
    SplitAt(rows, k, k + size);
  }

  lemma OnlyPage<T, C>(fetch: Option<C> -> Page<T, C>, cursor: Option<C>, page: seq<T>) returns (pages: seq<seq<T>>)
    requires fetch(cursor) == Page(page, None)
    ensures Follows(fetch, cursor, pages) && Concat(pages) == page && |pages| == 1
  {
    pages := [page];
    assert Concat(pages) == page + Concat(pages[1..]);
  }

  /** Then the walk is the rows cut into pages. */
  lemma {:induction false} LeadingWalk<T, C>(fetch: Option<C> -> Page<T, C>, cursor: Option<C>, rows: seq<T>, k: nat,
                                             size: nat, cursorOf: T -> C) returns (pages: seq<seq<T>>)
    requires size >= 1 && k <= |rows|
    requires fetch(cursor) == PageAt(rows, k, size, cursorOf)
    requires CursorsLead(fetch, rows, k, size, cursorOf)
    ensures Follows(fetch, cursor, pages) && Concat(pages) == rows[k..]
    ensures |pages| == PageCount(|rows| - k, size)
    decreases |rows| - k
  {
    if k + size < |rows| {
      var rest := LeadingWalk(fetch, Some(cursorOf(rows[k + size - 1])), rows, k + size, size, cursorOf);
      pages := PrependPage(fetch, cursor, rows, k, size, cursorOf, rest);
      OneMorePage(|rows| - k, |rows| - (k + size), size);
    } else {
      pages := OnlyPage(fetch, cursor, rows[k..]);
    }
  }

  /** Exact cuts suffice. */
  lemma ExactCutsShow<T, C>(fetch: Option<C> -> Page<T, C>, rows: seq<T>, size: nat, cursorOf: T -> C,
                            start: nat -> nat)
      returns (pages: seq<seq<T>>)
    requires size >= 1 && Fetches(fetch, rows, size, cursorOf, start)
    requires AtCuts(Exact(start), 0, size, |rows|)
    ensures Follows(fetch, None, pages) && Concat(pages) == rows
    ensures |pages| == PageCount(|rows|, size)
  {
    ExactCutsLead(fetch, rows, 0, size, cursorOf, start);
    pages := LeadingWalk(fetch, None, rows, 0, size, cursorOf);
    assert rows[0..] == rows;
  }

  lemma FirstPage<T, C>(fetch: Option<C> -> Page<T, C>, cursor: Option<C>, pages: seq<seq<T>>)
    requires Follows(fetch, cursor, pages)
    ensures Concat(pages) == fetch(cursor).items + (if fetch(cursor).next.None? then [] else Concat(pages[1..]))
    ensures fetch(cursor).next.Some? ==> Follows(fetch, fetch(cursor).next, pages[1..])
  {
  }

  lemma SplitEqual<T>(rows: seq<T>, k: nat, cut: nat, rest: seq<T>)
    requires k <= cut <= |rows| && rows[k..cut] + rest == rows[k..]
    ensures rest == rows[cut..]
  {
    SplitAt(rows, k, cut);
    assert rest == (rows[k..cut] + rest)[cut - k..];
    assert rows[cut..] == (rows[k..cut] + rows[cut..])[cut - k..];
  }

  /** After one page, what is left of a walk that shows the rows from k shows the rows after the page. */
  lemma RestShown<T, C>(fetch: Option<C> -> Page<T, C>, cursor: Option<C>, rows: seq<T>, k: nat, size: nat,
                        cursorOf: T -> C, pages: seq<seq<T>>)
    requires size >= 1 && k + size < |rows|
    requires fetch(cursor) == PageAt(rows, k, size, cursorOf)
    requires Follows(fetch, cursor, pages) && Concat(pages) == rows[k..]
    ensures Follows(fetch, Some(cursorOf(rows[k + size - 1])), pages[1..]) && Concat(pages[1..]) == rows[k + size..]
  {
    FirstPage(fetch, cursor, pages);
    SplitEqual(rows, k, k + size, Concat(pages[1..]));
  }

  /** A walk that shows the rows from `cut` on started at row `cut`. */
  lemma StartsWhereItShould<T, C>(fetch: Option<C> -> Page<T, C>, cursor: Option<C>, rows: seq<T>, k: nat, cut: nat,
                                  size: nat, cursorOf: T -> C, pages: seq<seq<T>>)
    requires size >= 1 && k <= |rows| && cut < |rows| && Distinct(rows)
    requires fetch(cursor) == PageAt(rows, k, size, cursorOf)
    requires Follows(fetch, cursor, pages) && Concat(pages) == rows[cut..]
    ensures k == cut
  {
    FirstPage(fetch, cursor, pages);
    assert rows[cut..][0] == rows[cut];
    if k < |rows| {
      assert Concat(pages)[0] == fetch(cursor).items[0] == rows[k];
    }
  }

  lemma OneMoreCut(ok: nat -> bool, k: nat, size: nat, n: nat)
    requires size >= 1 && ok(k + size) && AtCuts(ok, k + size, size, n)
    ensures AtCuts(ok, k, size, n)
  {
  }

  lemma NextCut<T, C>(fetch: Option<C> -> Page<T, C>, cursor: Option<C>, rows: seq<T>, k: nat, size: nat,
                      cursorOf: T -> C, start: nat -> nat, pages: seq<seq<T>>)
    requires size >= 1 && k + size < |rows| && Distinct(rows)
    requires Fetches(fetch, rows, size, cursorOf, start)
    requires fetch(cursor) == PageAt(rows, k, size, cursorOf)
    requires Follows(fetch, cursor, pages) && Concat(pages) == rows[k..]
    ensures var next := Some(cursorOf(rows[k + size - 1]));
            && start(k + size) == k + size
            && fetch(next) == PageAt(rows, k + size, size, cursorOf)
            && Follows(fetch, next, pages[1..]) && Concat(pages[1..]) == rows[k + size..]
  {
    var cut := k + size;
    RestShown(fetch, cursor, rows, k, size, cursorOf, pages);
    assert FetchesAt(fetch, rows, size, cursorOf, cut, start(cut));
    StartsWhereItShould(fetch, Some(cursorOf(rows[cut - 1])), rows, start(cut), cut, size, cursorOf, pages[1..]);
  }

  /** Exact cuts are also needed. */
  lemma {:induction false} ShownMeansExact<T, C>(fetch: Option<C> -> Page<T, C>, cursor: Option<C>, rows: seq<T>,
                                                 k: nat, size: nat, cursorOf: T -> C, start: nat -> nat,
                                                 pages: seq<seq<T>>)
    requires size >= 1 && k <= |rows| && Distinct(rows)
    requires Fetches(fetch, rows, size, cursorOf, start)
    requires fetch(cursor) == PageAt(rows, k, size, cursorOf)
    requires Follows(fetch, cursor, pages) && Concat(pages) == rows[k..]
    ensures AtCuts(Exact(start), k, size, |rows|)
    decreases |rows| - k
  {
    if k + size < |rows| {
      var cut := k + size;
      NextCut(fetch, cursor, rows, k, size, cursorOf, start, pages);
      ShownMeansExact(fetch, Some(cursorOf(rows[cut - 1])), rows, cut, size, cursorOf, start, pages[1..]);
      OneMoreCut(Exact(start), k, size, |rows|);
    }
  }

  /** The walk from no cursor shows the rows exactly when every cut is exact. */
  lemma ShownIffExact<T(!new), C>(fetch: Option<C> -> Page<T, C>, rows: seq<T>, size: nat, cursorOf: T -> C,
                                  start: nat -> nat)
    requires size >= 1 && Distinct(rows) && Fetches(fetch, rows, size, cursorOf, start)
    ensures Shows(fetch, None, rows) <==> AtCuts(Exact(start), 0, size, |rows|)
  {
    assert rows[0..] == rows;
    if AtCuts(Exact(start), 0, size, |rows|) {
      var pages := ExactCutsShow(fetch, rows, size, cursorOf, start);
    }
    if pages :| Follows(fetch, None, pages) && Concat(pages) == rows {
      ShownMeansExact(fetch, None, rows, 0, size, cursorOf, start, pages);
    }
  }

  /** A cursor whose page leads back to it: no walk from there ends. */
  lemma {:induction false} LoopNeverEnds<T, C>(fetch: Option<C> -> Page<T, C>, cursor: C, pages: seq<seq<T>>)
    requires fetch(Some(cursor)).next == Some(cursor)
    ensures !Follows(fetch, Some(cursor), pages)
  {
    if pages != [] {
      LoopNeverEnds(fetch, cursor, pages[1..]);
    }
  }

  // ---- How many pages ----

  lemma MultipleGrows(size: int, d: int)
    requires size >= 1
    ensures d >= 1 ==> size * d >= size
    ensures d <= -1 ==> size * d <= -size
  {
    assert d >= 1 ==> size * (d - 1) >= 0;
    assert d <= -1 ==> size * (d + 1) <= 0;
  }

  lemma MultipleTooSmall(size: int, d: int)
    requires size >= 1 && -size < size * d < size
    ensures d == 0
  {
    MultipleGrows(size, d);
  }

  lemma QuotientUnique(a: nat, size: nat, q: int, r: nat)
    requires r < size && a == size * q + r
    ensures a / size == q
  {
    var d := a / size - q;
    assert size * d == r - a % size by {
      assert a == size * (a / size) + a % size;
      assert size * d == size * (a / size) - size * q;
    }
    MultipleTooSmall(size, d);
  }

  lemma DivideStep(a: nat, size: nat)
    requires size >= 1
    ensures (a + size) / size == a / size + 1
  {
    var q, r := (a + size) / size, (a + size) % size;
    assert a == size * (q - 1) + r by {
      assert a + size == size * q + r;
    }
    QuotientUnique(a, size, q - 1, r);
  }

  lemma SmallQuotient(a: nat, size: nat)
    requires a < size
    ensures a / size == 0
  {
  }

  /** The number of full or partial pages, at least one. */
  lemma {:induction false} PageCountIsCeiling(n: nat, size: nat)
    requires size >= 1
    ensures PageCount(n, size) == if n == 0 then 1 else (n + size - 1) / size
    decreases n
  {
    if n > size {
      PageCountIsCeiling(n - size, size);
      DivideStep(n - 1, size);
    } else if n > 0 {
      DivideStep(n - 1, size);
      SmallQuotient(n - 1, size);
    }
  }
}
