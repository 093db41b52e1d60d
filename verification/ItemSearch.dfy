/** Keyset pagination of the item search: the order of the three sorts, the cursor that names the
    last item of a page, the filter that resumes after it, and when following cursors visits every
    matching item exactly once. */
module ItemSearch {
  import opened Wrappers
  import opened Sequences
  import opened KeysetWalk

  /** Prices are whole hundredths; a missing price is the database's null. Distances are metres. */
  datatype Item = Item(id: int, createdAt: int, price: Option<int>, distance: real)

  datatype Sort = ByDistance | ByPrice | ByRecent | OtherSort

  /** The sort is recorded in a cursor together with a value of that sort and the last item's id. */
  datatype Cursor =
    | AtDistance(metres: real, id: int)
    | AtPrice(amount: int, id: int)
    | AtStamp(stamp: int, id: int)

  const MAX_LIMIT := 100

  /** An unknown sort reads as distance, and distance without a point falls back to recent. */
  function EffectiveSort(sort: Sort, hasPoint: bool): Sort {
    var sort := if sort == OtherSort then ByDistance else sort;
    if sort == ByDistance && hasPoint then ByDistance
    else if sort == ByPrice then ByPrice
    else ByRecent
  }

  /** `order_by`: ascending distance, ascending price with nulls last, or newest first; ties by id. */
  predicate Before(sort: Sort, a: Item, b: Item) {
    match sort
    case ByDistance => a.distance < b.distance || (a.distance == b.distance && a.id < b.id)
    case ByPrice =>
      (match (a.price, b.price)
       case (Some(p), Some(q)) => p < q || (p == q && a.id < b.id)
       case (Some(_), None) => true
       case (None, Some(_)) => false
       case (None, None) => a.id < b.id)
    case _ => a.createdAt > b.createdAt || (a.createdAt == b.createdAt && a.id < b.id)
  }

  /** The cursor filter. A comparison with a null price is never true. */
  predicate After(c: Cursor, y: Item) {
    match c
    case AtDistance(m, id) => y.distance > m || (y.distance == m && y.id > id)
    case AtPrice(v, id) => y.price.Some? && (y.price.value > v || (y.price.value == v && y.id > id))
    case AtStamp(t, id) => y.createdAt < t || (y.createdAt == t && y.id > id)
  }

  predicate CursorFits(sort: Sort, c: Cursor) {
    match c
    case AtDistance(_, _) => sort == ByDistance
    case AtPrice(_, _) => sort == ByPrice
    case AtStamp(_, _) => sort == ByRecent
  }

  function RoundHalfEven(x: real): int {
    var f := x.Floor;
    var rest := x - f as real;
    if rest < 0.5 then f else if rest > 0.5 then f + 1 else if f % 2 == 0 then f else f + 1
  }

  function GridPoint(k: int): real { k as real / 1000.0 }

  /** Distances enter a cursor rounded to millimetres. */
  function RoundMm(d: real): real {
    GridPoint(RoundHalfEven(d * 1000.0))
  }

  /** A null price enters a cursor as zero. */
  function CursorOf(sort: Sort, last: Item): Cursor {
    match sort
    case ByDistance => AtDistance(RoundMm(last.distance), last.id)
    case ByPrice => AtPrice(if last.price.Some? then last.price.value else 0, last.id)
    case _ => AtStamp(last.createdAt, last.id)
  }

  function CursorFor(sort: Sort): Item -> Cursor {
    last => CursorOf(sort, last)
  }

  ghost predicate DistinctIds(items: set<Item>) {
    forall a, b :: a in items && b in items && a.id == b.id ==> a == b
  }

  // ---- The ordered listing of a set of items ----

  ghost predicate Ordered(sort: Sort, s: seq<Item>) {
    forall i, j {:trigger Before(sort, s[i], s[j])} :: 0 <= i < j < |s| ==> Before(sort, s[i], s[j])
  }

  ghost predicate Lists(sort: Sort, items: set<Item>, s: seq<Item>) {
    Ordered(sort, s) && forall x :: x in s <==> x in items
  }

  lemma BeforeIsTotal(sort: Sort, a: Item, b: Item)
    requires a.id != b.id
    ensures Before(sort, a, b) != Before(sort, b, a)
  {
  }

  lemma BeforeIsTransitive(sort: Sort, a: Item, b: Item, c: Item)
    requires Before(sort, a, b) && Before(sort, b, c)
    ensures Before(sort, a, c)
  {
  }

  ghost predicate IsFirst(sort: Sort, items: set<Item>, x: Item) {
    forall y {:trigger Before(sort, x, y)} :: y in items && y != x ==> Before(sort, x, y)
  }

  lemma {:induction false} FirstExists(sort: Sort, items: set<Item>)
    requires DistinctIds(items) && items != {}
    ensures exists x :: x in items && IsFirst(sort, items, x)
  {
    var x :| x in items;
    assert items == {x} ==> IsFirst(sort, items, x);
    if items != {x} {
      var rest := items - {x};
      FirstExists(sort, rest);
      var m :| m in rest && IsFirst(sort, rest, m);
      BeforeIsTotal(sort, x, m);
      var first := if Before(sort, x, m) then x else m;
      forall y | y in items && y != first
        ensures Before(sort, first, y)
      {
        if first == x && y != m {
          BeforeIsTransitive(sort, x, m, y);
        }
      }
      assert IsFirst(sort, items, first);
    }
  }

  lemma {:induction false} ListingExists(sort: Sort, items: set<Item>)
    requires DistinctIds(items)
    ensures exists s :: Lists(sort, items, s)
  {
    if items == {} {
      assert Lists(sort, items, []);
    } else {
      FirstExists(sort, items);
      var x :| x in items && IsFirst(sort, items, x);
      ListingExists(sort, items - {x});
      var rest :| Lists(sort, items - {x}, rest);
      var s := [x] + rest;
      forall i, j | 0 <= i < j < |s|
        ensures Before(sort, s[i], s[j])
      {
        assert s[j] == rest[j - 1] && rest[j - 1] in rest;
        if i > 0 {
          assert Before(sort, rest[i - 1], rest[j - 1]);
        }
      }
      assert Lists(sort, items, s);
    }
  }

  /** The rows of the query, in order. */
  ghost function Listing(sort: Sort, items: set<Item>): seq<Item>
    requires DistinctIds(items)
  {
    ListingExists(sort, items);
    var s :| Lists(sort, items, s);
    s
  }

  lemma BeforeIsIrreflexive(sort: Sort, x: Item)
    ensures !Before(sort, x, x)
  {
  }

  lemma NoRepeat(sort: Sort, rows: seq<Item>, i: nat, j: nat)
    requires Ordered(sort, rows) && i < j < |rows|
    ensures rows[i] != rows[j]
  {
    assert Before(sort, rows[i], rows[j]);
    BeforeIsIrreflexive(sort, rows[i]);
  }

  lemma ListingCount(sort: Sort, items: set<Item>)
    requires DistinctIds(items)
    ensures |Listing(sort, items)| == |items|
  {
    var s := Listing(sort, items);
    forall i, j | 0 <= i < j < |s| ensures s[i] != s[j] {
      NoRepeat(sort, s, i, j);
    }
    DistinctCardinality(s);
    assert Elements(s) == items;
  }

  lemma EmptyLists(sort: Sort, items: set<Item>, s: seq<Item>)
    requires Lists(sort, items, s)
    ensures s == [] <==> items == {}
  {
    assert s == [] || s[0] in s;
  }

  lemma HeadsAgree(sort: Sort, a: seq<Item>, b: seq<Item>, i: nat, j: nat)
    requires Ordered(sort, a) && Ordered(sort, b)
    requires i < |b| && j < |a| && b[i] == a[0] && a[j] == b[0]
    ensures a[0] == b[0]
  {
    if a[0] != b[0] {
      assert Before(sort, a[0], a[j]) && Before(sort, b[0], b[i]);
      BeforeIsTransitive(sort, a[0], b[0], a[0]);
      BeforeIsIrreflexive(sort, a[0]);
    }
  }

  lemma SuffixOrdered(sort: Sort, rows: seq<Item>, k: nat)
    requires Ordered(sort, rows) && k <= |rows|
    ensures Ordered(sort, rows[k..])
  {
    forall i, j | 0 <= i < j < |rows[k..]|
      ensures Before(sort, rows[k..][i], rows[k..][j])
    {
      assert Before(sort, rows[k + i], rows[k + j]);
    }
  }

  lemma TailLists(sort: Sort, items: set<Item>, s: seq<Item>)
    requires Lists(sort, items, s) && s != []
    ensures Lists(sort, items - {s[0]}, s[1..])
  {
    SuffixOrdered(sort, s, 1);
    BeforeIsIrreflexive(sort, s[0]);
    assert s == [s[0]] + s[1..];
    forall x | x in s[1..] ensures x != s[0] {
      var i :| 0 <= i < |s[1..]| && s[1..][i] == x;
      assert Before(sort, s[0], s[i + 1]);
    }
  }

  lemma {:induction false} ListingUnique(sort: Sort, items: set<Item>, a: seq<Item>, b: seq<Item>)
    requires Lists(sort, items, a) && Lists(sort, items, b)
    ensures a == b
    decreases |a|
  {
    EmptyLists(sort, items, a);
    EmptyLists(sort, items, b);
    if a != [] {
      assert a[0] in items;
      var i :| 0 <= i < |b| && b[i] == a[0];
      assert b[0] in items;
      var j :| 0 <= j < |a| && a[j] == b[0];
      HeadsAgree(sort, a, b, i, j);
      TailLists(sort, items, a);
      TailLists(sort, items, b);
      ListingUnique(sort, items - {a[0]}, a[1..], b[1..]);
      assert a == [a[0]] + a[1..] && b == [b[0]] + b[1..];
    }
  }

  lemma ListingLists(sort: Sort, items: set<Item>)
    requires DistinctIds(items)
    ensures Lists(sort, items, Listing(sort, items))
  {
  }

  // ---- One page ----

  ghost function Selected(sort: Sort, matching: set<Item>, cursor: Option<Cursor>): (chosen: set<Item>)
    ensures DistinctIds(matching) ==> DistinctIds(chosen)
  {
    if cursor.Some? && CursorFits(sort, cursor.value) then set y | y in matching && After(cursor.value, y)
    else matching
  }

  function Min(a: int, b: int): int { if a < b then a else b }

  /** One row more than the limit is fetched, to see whether a further page exists. */
  function TakePage(sort: Sort, rows: seq<Item>, limit: int): Page<Item, Cursor>
    requires limit >= -1
  {
    var fetch := limit + 1;
    var fetched := rows[..Min(fetch, |rows|)];
    var hasNext := |fetched| > limit;
    var items := if hasNext && limit >= 0 then fetched[..limit] else fetched;
    Page(items, if hasNext && items != [] then Some(CursorOf(sort, items[|items| - 1])) else None)
  }

  /** `build_search_qs` on the items that pass its filters. A cursor of another sort is ignored. */
  ghost function BuildPage(sort: Sort, matching: set<Item>, cursor: Option<Cursor>, limit: int): Page<Item, Cursor>
    requires DistinctIds(matching) && limit >= -1
  {
    TakePage(sort, Listing(sort, Selected(sort, matching, cursor)), Min(limit, MAX_LIMIT))
  }

  lemma PageIsPrefix(sort: Sort, rows: seq<Item>, size: nat)
    requires size >= 1
    ensures TakePage(sort, rows, size) ==
            if size < |rows| then Page(rows[..size], Some(CursorOf(sort, rows[size - 1]))) else Page(rows, None)
  {
    if size < |rows| {
      assert rows[..size + 1][..size] == rows[..size];
    } else {
      assert rows[..|rows|] == rows;
    }
  }

  lemma ItemsArePrefix(sort: Sort, rows: seq<Item>, limit: int)
    requires limit >= -1
    ensures var items := TakePage(sort, rows, limit).items;
            items <= rows && |items| == if limit < 0 then 0 else Min(limit, |rows|)
  {
  }

  /** What a page shows, whatever the sort: selected items in order, and those left over only if it is full
      and after all it shows. */
  lemma PageShows(sort: Sort, matching: set<Item>, cursor: Option<Cursor>, limit: int)
    requires DistinctIds(matching) && limit >= -1
    ensures var items := BuildPage(sort, matching, cursor, limit).items;
            && Ordered(sort, items)
            && (forall x :: x in items ==> x in Selected(sort, matching, cursor))
            && (forall y :: y in Selected(sort, matching, cursor) && y !in items ==>
                  |items| == (if limit < 0 then 0 else Min(limit, MAX_LIMIT))
                  && forall i :: 0 <= i < |items| ==> Before(sort, items[i], y))
  {
    var chosen := Selected(sort, matching, cursor);
    var rows := Listing(sort, chosen);
    var items := BuildPage(sort, matching, cursor, limit).items;
    ListingLists(sort, chosen);
    ItemsArePrefix(sort, rows, Min(limit, MAX_LIMIT));
    forall i, j | 0 <= i < j < |items|
      ensures Before(sort, items[i], items[j])
    {
      assert Before(sort, rows[i], rows[j]);
    }
    forall y | y in chosen && y !in items
      ensures |items| < |rows| && forall i :: 0 <= i < |items| ==> Before(sort, items[i], y)
    {
      assert y in rows;
      var j :| 0 <= j < |rows| && rows[j] == y;
      assert j >= |items| by {
        assert forall i :: 0 <= i < |items| ==> items[i] == rows[i];
      }
      forall i | 0 <= i < |items| ensures Before(sort, items[i], y) {
        assert Before(sort, rows[i], rows[j]);
      }
    }
  }

  /** By recency a page shows the newest items first, equally new ones by id, from behind the cursor's stamp
      and id on, and leaves none of them out before its last. */
  lemma PageByRecency(matching: set<Item>, cursor: Option<Cursor>, limit: int)
    requires DistinctIds(matching) && limit >= -1
    ensures var items := BuildPage(ByRecent, matching, cursor, limit).items;
            var ahead := (a: Item, b: Item) =>
              a.createdAt > b.createdAt || (a.createdAt == b.createdAt && a.id < b.id);
            var shown := (x: Item) => x in matching && match cursor {
              case Some(AtStamp(t, id)) => x.createdAt < t || (x.createdAt == t && x.id > id)
              case _ => true
            };
            && (forall i, j :: 0 <= i < j < |items| ==> ahead(items[i], items[j]))
            && (forall x :: x in items ==> shown(x))
            && (forall y :: shown(y) && y !in items ==>
                  && |items| == (if limit < 0 then 0 else Min(limit, 100))
                  && forall i :: 0 <= i < |items| ==> ahead(items[i], y))
  {
    PageShows(ByRecent, matching, cursor, limit);
    var items := BuildPage(ByRecent, matching, cursor, limit).items;
    assert forall i, j :: 0 <= i < j < |items| ==> Before(ByRecent, items[i], items[j]);
  }

  /** By price a page shows the cheapest items first, equal prices by id, and items without a price last, by id;
      from behind the cursor's price and id on, where there are only items with a price; and leaves none of
      them out before its last. */
  lemma PageByPrice(matching: set<Item>, cursor: Option<Cursor>, limit: int)
    requires DistinctIds(matching) && limit >= -1
    ensures var items := BuildPage(ByPrice, matching, cursor, limit).items;
            var ahead := (a: Item, b: Item) =>
              (a.price.None? ==> b.price.None?)
              && (a.price.Some? && b.price.Some? ==> a.price.value <= b.price.value)
              && (a.price == b.price ==> a.id < b.id);
            var shown := (x: Item) => x in matching && match cursor {
              case Some(AtPrice(p, id)) => x.price.Some? && (x.price.value > p || (x.price.value == p && x.id > id))
              case _ => true
            };
            && (forall i, j :: 0 <= i < j < |items| ==> ahead(items[i], items[j]))
            && (forall x :: x in items ==> shown(x))
            && (forall y :: shown(y) && y !in items ==>
                  && |items| == (if limit < 0 then 0 else Min(limit, 100))
                  && forall i :: 0 <= i < |items| ==> ahead(items[i], y))
  {
    PageShows(ByPrice, matching, cursor, limit);
    var items := BuildPage(ByPrice, matching, cursor, limit).items;
    assert forall i, j :: 0 <= i < j < |items| ==> Before(ByPrice, items[i], items[j]);
  }

  /** By distance a page shows the nearest items first, equal distances by id, from behind the cursor's
      distance and id on, and leaves none of them out before its last. */
  lemma PageByDistance(matching: set<Item>, cursor: Option<Cursor>, limit: int)
    requires DistinctIds(matching) && limit >= -1
    ensures var items := BuildPage(ByDistance, matching, cursor, limit).items;
            var ahead := (a: Item, b: Item) =>
              a.distance < b.distance || (a.distance == b.distance && a.id < b.id);
            var shown := (x: Item) => x in matching && match cursor {
              case Some(AtDistance(m, id)) => x.distance > m || (x.distance == m && x.id > id)
              case _ => true
            };
            && (forall i, j :: 0 <= i < j < |items| ==> ahead(items[i], items[j]))
            && (forall x :: x in items ==> shown(x))
            && (forall y :: shown(y) && y !in items ==>
                  && |items| == (if limit < 0 then 0 else Min(limit, 100))
                  && forall i :: 0 <= i < |items| ==> ahead(items[i], y))
  {
    PageShows(ByDistance, matching, cursor, limit);
    var items := BuildPage(ByDistance, matching, cursor, limit).items;
    assert forall i, j :: 0 <= i < j < |items| ==> Before(ByDistance, items[i], items[j]);
  }

  /** A cursor of another sort changes nothing. */
  lemma ForeignCursorIsIgnored(sort: Sort, matching: set<Item>, c: Cursor, limit: int)
    requires DistinctIds(matching) && limit >= -1
    requires match c
             case AtDistance(_, _) => sort != ByDistance
             case AtPrice(_, _) => sort != ByPrice
             case AtStamp(_, _) => sort != ByRecent
    ensures BuildPage(sort, matching, Some(c), limit) == BuildPage(sort, matching, None, limit)
  {
  }

  lemma NearestWhole(x: real)
    ensures var k := RoundHalfEven(x);
            x - 0.5 <= k as real <= x + 0.5 && (k as real == x - 0.5 || k as real == x + 0.5 ==> k % 2 == 0)
  {
  }

  /** The nearest point of the millimetre grid, the even one of two. */
  lemma RoundsToNearest(d: real)
    ensures exists k: int ::
              && RoundMm(d) == GridPoint(k) && d - 0.0005 <= GridPoint(k) <= d + 0.0005
              && (GridPoint(k) == d - 0.0005 || GridPoint(k) == d + 0.0005 ==> k % 2 == 0)
  {
    var k := RoundHalfEven(d * 1000.0);
    NearestWhole(d * 1000.0);
    assert RoundMm(d) == GridPoint(k);
  }

  /** A page that leaves items over names its last item: by its stamp, by its price or 0, or by its distance
      to the nearest millimetre. */
  lemma NextNamesLast(sort: Sort, matching: set<Item>, cursor: Option<Cursor>, limit: int)
    requires DistinctIds(matching) && limit >= 1
    ensures var Page(items, next) := BuildPage(sort, matching, cursor, limit);
            && (next.Some? <==> exists y :: y in Selected(sort, matching, cursor) && y !in items)
            && (next.Some? ==>
                  && items != []
                  && var last := items[|items| - 1];
                  && next.value.id == last.id
                  && match sort
                     case ByDistance => next.value.AtDistance? && next.value.metres == RoundMm(last.distance)
                     case ByPrice =>
                       next.value.AtPrice? && next.value.amount == if last.price.Some? then last.price.value else 0
                     case _ => next.value.AtStamp? && next.value.stamp == last.createdAt)
  {
    var chosen := Selected(sort, matching, cursor);
    var rows, size := Listing(sort, chosen), Min(limit, MAX_LIMIT);
    ListingLists(sort, chosen);
    PageIsPrefix(sort, rows, size);
    if size < |rows| {
      forall i | 0 <= i < size ensures rows[i] != rows[size] {
        NoRepeat(sort, rows, i, size);
      }
      assert rows[size] in chosen && rows[size] !in rows[..size];
    }
  }

  lemma SliceOfSlice(rows: seq<Item>, k: nat, size: nat)
    requires k + size <= |rows|
    ensures rows[k..][..size] == rows[k..k + size]
  {
  }

  lemma PageOfSuffix(sort: Sort, rows: seq<Item>, k: nat, size: nat)
    requires k <= |rows| && size >= 1
    ensures TakePage(sort, rows[k..], size) == PageAt(rows, k, size, CursorFor(sort))
  {
    PageIsPrefix(sort, rows[k..], size);
    if k + size < |rows| {
      SliceOfSlice(rows, k, size);
    }
  }

  // ---- Following cursors ----

  ghost function Fetcher(sort: Sort, matching: set<Item>, limit: int): Option<Cursor> -> Page<Item, Cursor>
    requires DistinctIds(matching) && limit >= 1
  {
    cursor => BuildPage(sort, matching, cursor, limit)
  }

  /** Following `next` from an empty cursor ends, having visited every matching item exactly once,
      in the declared order. */
  ghost predicate WalkIsComplete(sort: Sort, matching: set<Item>, limit: int)
    requires DistinctIds(matching) && limit >= 1
  {
    Shows(Fetcher(sort, matching, limit), None, Listing(sort, matching))
  }

  /** A complete walk of as many pages as the rows fill, at least one. */
  ghost predicate WalksInPages(sort: Sort, matching: set<Item>, limit: int)
    requires DistinctIds(matching) && limit >= 1
  {
    exists pages ::
      && Follows(Fetcher(sort, matching, limit), None, pages)
      && Concat(pages) == Listing(sort, matching)
      && |pages| == PageCount(|matching|, Min(limit, MAX_LIMIT))
  }

  /** The cursor selects the rows from k on. */
  ghost predicate SelectsFrom(sort: Sort, matching: set<Item>, rows: seq<Item>, cursor: Option<Cursor>, k: nat) {
    k <= |rows| && forall i :: 0 <= i < |rows| ==> (rows[i] in Selected(sort, matching, cursor) <==> k <= i)
  }

  /** The order of a filtered query is the filtered order. */
  lemma SuffixIsListed(sort: Sort, matching: set<Item>, rows: seq<Item>, cursor: Option<Cursor>, k: nat)
    requires DistinctIds(matching) && Lists(sort, matching, rows) && SelectsFrom(sort, matching, rows, cursor, k)
    ensures Listing(sort, Selected(sort, matching, cursor)) == rows[k..]
  {
    var chosen := Selected(sort, matching, cursor);
    forall x | x in chosen ensures x in rows[k..] {
      assert x in rows;
      var i :| 0 <= i < |rows| && rows[i] == x;
      assert rows[k..][i - k] == x;
    }
    forall x | x in rows[k..] ensures x in chosen {
      var i :| 0 <= i < |rows[k..]| && rows[k..][i] == x;
      assert rows[k + i] == x;
    }
    SuffixOrdered(sort, rows, k);
    ListingLists(sort, chosen);
    ListingUnique(sort, chosen, Listing(sort, chosen), rows[k..]);
  }

  lemma FetchFrom(sort: Sort, matching: set<Item>, limit: int, cursor: Option<Cursor>, k: nat)
    requires DistinctIds(matching) && limit >= 1
    requires SelectsFrom(sort, matching, Listing(sort, matching), cursor, k)
    ensures Fetcher(sort, matching, limit)(cursor)
         == PageAt(Listing(sort, matching), k, Min(limit, MAX_LIMIT), CursorFor(sort))
  {
    ListingLists(sort, matching);
    SuffixIsListed(sort, matching, Listing(sort, matching), cursor, k);
    PageOfSuffix(sort, Listing(sort, matching), k, Min(limit, MAX_LIMIT));
  }

  /** The cursor filter takes a whole end of the order: whatever comes after a selected row is
      selected too. */
  ghost predicate TakesAnEnd(sort: Sort, matching: set<Item>, cursor: Option<Cursor>) {
    forall y, z {:trigger Before(sort, y, z)} ::
      y in matching && z in matching && Before(sort, y, z) && y in Selected(sort, matching, cursor)
      ==> z in Selected(sort, matching, cursor)
  }

  lemma EndStartsSomewhere(sort: Sort, matching: set<Item>, rows: seq<Item>, cursor: Option<Cursor>)
    requires Lists(sort, matching, rows) && TakesAnEnd(sort, matching, cursor)
    ensures exists k: nat :: SelectsFrom(sort, matching, rows, cursor, k)
  {
    var k: nat := |rows|;
    while k > 0 && rows[k - 1] in Selected(sort, matching, cursor)
      invariant k <= |rows|
      invariant forall i :: k <= i < |rows| ==> rows[i] in Selected(sort, matching, cursor)
    {
      k := k - 1;
    }
    if k > 0 {
      forall i | 0 <= i < k
        ensures rows[i] !in Selected(sort, matching, cursor)
      {
        if i < k - 1 {
          assert Before(sort, rows[i], rows[k - 1]);
        }
      }
    }
    assert SelectsFrom(sort, matching, rows, cursor, k);
  }

  ghost predicate AllTakeAnEnd(sort: Sort, matching: set<Item>) {
    forall x :: x in matching ==> TakesAnEnd(sort, matching, Some(CursorOf(sort, x)))
  }

  ghost predicate ResumesFrom(sort: Sort, matching: set<Item>, i: nat, k: nat)
    requires DistinctIds(matching) && 1 <= i <= |Listing(sort, matching)|
  {
    SelectsFrom(sort, matching, Listing(sort, matching), Some(CursorOf(sort, Listing(sort, matching)[i - 1])), k)
  }

  lemma RowResumes(sort: Sort, matching: set<Item>, i: nat)
    requires DistinctIds(matching) && AllTakeAnEnd(sort, matching) && 1 <= i <= |Listing(sort, matching)|
    ensures exists k: nat :: ResumesFrom(sort, matching, i, k)
  {
    var rows := Listing(sort, matching);
    var cursor := Some(CursorOf(sort, rows[i - 1]));
    ListingLists(sort, matching);
    assert rows[i - 1] in matching;
    EndStartsSomewhere(sort, matching, rows, cursor);
    var k: nat :| SelectsFrom(sort, matching, rows, cursor, k);
    assert ResumesFrom(sort, matching, i, k);
  }

  /** The row from which the cursor of row i - 1 resumes. */
  ghost function Resume(sort: Sort, matching: set<Item>, i: nat): nat
    requires DistinctIds(matching) && AllTakeAnEnd(sort, matching)
  {
    var rows := Listing(sort, matching);
    if 1 <= i <= |rows| then
      RowResumes(sort, matching, i);
      var k: nat :| ResumesFrom(sort, matching, i, k);
      k
    else 0
  }

  ghost function Resumes(sort: Sort, matching: set<Item>): nat -> nat
    requires DistinctIds(matching) && AllTakeAnEnd(sort, matching)
  {
    (i: nat) => Resume(sort, matching, i)
  }

  lemma FetcherFetches(sort: Sort, matching: set<Item>, limit: int)
    requires DistinctIds(matching) && limit >= 1 && AllTakeAnEnd(sort, matching)
    ensures Fetches(Fetcher(sort, matching, limit), Listing(sort, matching), Min(limit, MAX_LIMIT),
                    CursorFor(sort), Resumes(sort, matching))
  {
    var rows := Listing(sort, matching);
    ListingLists(sort, matching);
    assert SelectsFrom(sort, matching, rows, None, 0);
    FetchFrom(sort, matching, limit, None, 0);
    forall i: nat | 1 <= i < |rows|
      ensures FetchesAt(Fetcher(sort, matching, limit), rows, Min(limit, MAX_LIMIT), CursorFor(sort),
                        i, Resume(sort, matching, i))
    {
      FetchFrom(sort, matching, limit, Some(CursorOf(sort, rows[i - 1])), Resume(sort, matching, i));
    }
  }

  lemma ListingDistinct(sort: Sort, matching: set<Item>)
    requires DistinctIds(matching)
    ensures Distinct(Listing(sort, matching)) && |Listing(sort, matching)| == |matching|
  {
    var rows := Listing(sort, matching);
    forall i, j | 0 <= i < j < |rows| ensures rows[i] != rows[j] {
      NoRepeat(sort, rows, i, j);
    }
    ListingCount(sort, matching);
  }

  /** The cursor of x resumes right after x. */
  ghost predicate ResumesAfter(sort: Sort, matching: set<Item>, x: Item) {
    forall y {:trigger Before(sort, x, y)} :: y in matching ==> (After(CursorOf(sort, x), y) <==> Before(sort, x, y))
  }

  lemma BeforeIsAsymmetric(sort: Sort, a: Item, b: Item)
    requires Before(sort, a, b)
    ensures !Before(sort, b, a)
  {
  }

  lemma RowsBeforeCut(sort: Sort, rows: seq<Item>, i: nat, k: nat)
    requires Ordered(sort, rows) && i < |rows| && 1 <= k <= |rows|
    ensures Before(sort, rows[k - 1], rows[i]) <==> k <= i
  {
    if i == k - 1 {
      BeforeIsIrreflexive(sort, rows[i]);
    } else if i < k - 1 {
      assert Before(sort, rows[i], rows[k - 1]);
      BeforeIsAsymmetric(sort, rows[i], rows[k - 1]);
    } else {
      assert Before(sort, rows[k - 1], rows[i]);
    }
  }

  /** Resuming right after row i - 1 is selecting exactly the rows from i on. */
  lemma ResumesAfterIff(sort: Sort, matching: set<Item>, rows: seq<Item>, i: nat)
    requires sort != OtherSort && Lists(sort, matching, rows) && 1 <= i <= |rows|
    ensures ResumesAfter(sort, matching, rows[i - 1]) <==>
            SelectsFrom(sort, matching, rows, Some(CursorOf(sort, rows[i - 1])), i)
  {
    var x, cursor := rows[i - 1], Some(CursorOf(sort, rows[i - 1]));
    forall j | 0 <= j < |rows|
      ensures Before(sort, x, rows[j]) <==> i <= j
      ensures rows[j] in Selected(sort, matching, cursor) <==> After(cursor.value, rows[j])
    {
      RowsBeforeCut(sort, rows, j, i);
    }
    if SelectsFrom(sort, matching, rows, cursor, i) {
      forall y | y in matching
        ensures After(cursor.value, y) <==> Before(sort, x, y)
      {
        assert y in rows;
        var j :| 0 <= j < |rows| && rows[j] == y;
      }
    }
  }

  lemma SelectsFromUnique(sort: Sort, matching: set<Item>, rows: seq<Item>, cursor: Option<Cursor>, j: nat, k: nat)
    requires SelectsFrom(sort, matching, rows, cursor, j) && SelectsFrom(sort, matching, rows, cursor, k)
    ensures j == k
  {
    assert j < |rows| ==> (rows[j] in Selected(sort, matching, cursor) <==> k <= j);
    assert k < |rows| ==> (rows[k] in Selected(sort, matching, cursor) <==> j <= k);
  }

  lemma ResumeIsExactIff(sort: Sort, matching: set<Item>, i: nat)
    requires sort != OtherSort && DistinctIds(matching) && AllTakeAnEnd(sort, matching)
    requires 1 <= i <= |Listing(sort, matching)|
    ensures Resume(sort, matching, i) == i <==> ResumesAfter(sort, matching, Listing(sort, matching)[i - 1])
  {
    var rows := Listing(sort, matching);
    var cursor := Some(CursorOf(sort, rows[i - 1]));
    ListingLists(sort, matching);
    ResumesAfterIff(sort, matching, rows, i);
    if SelectsFrom(sort, matching, rows, cursor, i) {
      SelectsFromUnique(sort, matching, rows, cursor, i, Resume(sort, matching, i));
    }
  }

  /** Row i - 1's cursor resumes right after it. */
  ghost function Clean(sort: Sort, matching: set<Item>): nat -> bool
    requires DistinctIds(matching)
  {
    (i: nat) => 1 <= i <= |Listing(sort, matching)| && ResumesAfter(sort, matching, Listing(sort, matching)[i - 1])
  }

  lemma ExactIffClean(sort: Sort, matching: set<Item>)
    requires sort != OtherSort && DistinctIds(matching) && AllTakeAnEnd(sort, matching)
    ensures forall i: nat :: 1 <= i < |Listing(sort, matching)| ==>
              Exact(Resumes(sort, matching))(i) == Clean(sort, matching)(i)
  {
    forall i: nat | 1 <= i < |Listing(sort, matching)|
      ensures Exact(Resumes(sort, matching))(i) == Clean(sort, matching)(i)
    {
      ResumeIsExactIff(sort, matching, i);
    }
  }

  /** The walk is complete exactly when every page's cursor resumes right after the page. */
  lemma CompleteIffClean(sort: Sort, matching: set<Item>, limit: int)
    requires sort != OtherSort && DistinctIds(matching) && limit >= 1 && AllTakeAnEnd(sort, matching)
    ensures WalkIsComplete(sort, matching, limit) <==>
            AtCuts(Clean(sort, matching), 0, Min(limit, MAX_LIMIT), |matching|)
  {
    var rows, size := Listing(sort, matching), Min(limit, MAX_LIMIT);
    FetcherFetches(sort, matching, limit);
    ListingDistinct(sort, matching);
    ShownIffExact(Fetcher(sort, matching, limit), rows, size, CursorFor(sort), Resumes(sort, matching));
    ExactIffClean(sort, matching);
    SameAtCuts(Exact(Resumes(sort, matching)), Clean(sort, matching), 0, size, |rows|);
  }

  lemma ListingIn(sort: Sort, matching: set<Item>)
    requires DistinctIds(matching)
    ensures forall i :: 0 <= i < |Listing(sort, matching)| ==> Listing(sort, matching)[i] in matching
  {
    ListingLists(sort, matching);
  }

  lemma AllClean(sort: Sort, matching: set<Item>)
    requires sort != OtherSort && DistinctIds(matching) && AllTakeAnEnd(sort, matching)
    requires forall x :: x in matching ==> ResumesAfter(sort, matching, x)
    ensures forall i: nat :: 1 <= i < |Listing(sort, matching)| ==> Exact(Resumes(sort, matching))(i)
  {
    ListingIn(sort, matching);
    forall i: nat | 1 <= i < |Listing(sort, matching)|
      ensures Exact(Resumes(sort, matching))(i)
    {
      assert Listing(sort, matching)[i - 1] in matching;
      ResumeIsExactIff(sort, matching, i);
    }
  }

  lemma CleanFetches(sort: Sort, matching: set<Item>, limit: int)
    requires sort != OtherSort && DistinctIds(matching) && limit >= 1 && AllTakeAnEnd(sort, matching)
    requires forall x :: x in matching ==> ResumesAfter(sort, matching, x)
    ensures Fetches(Fetcher(sort, matching, limit), Listing(sort, matching), Min(limit, MAX_LIMIT),
                    CursorFor(sort), Resumes(sort, matching))
    ensures AtCuts(Exact(Resumes(sort, matching)), 0, Min(limit, MAX_LIMIT), |Listing(sort, matching)|)
    ensures |Listing(sort, matching)| == |matching|
  {
    FetcherFetches(sort, matching, limit);
    ListingDistinct(sort, matching);
    AllClean(sort, matching);
    EverywhereIsAtCuts(Exact(Resumes(sort, matching)), 0, Min(limit, MAX_LIMIT), |matching|);
  }

  /** If every cursor resumes right after its item, the walk is complete, in the fewest pages. */
  lemma CleanWalk(sort: Sort, matching: set<Item>, limit: int)
    requires sort != OtherSort && DistinctIds(matching) && limit >= 1 && AllTakeAnEnd(sort, matching)
    requires forall x :: x in matching ==> ResumesAfter(sort, matching, x)
    ensures WalksInPages(sort, matching, limit)
  {
    CleanFetches(sort, matching, limit);
    var pages := ExactCutsShow(Fetcher(sort, matching, limit), Listing(sort, matching), Min(limit, MAX_LIMIT),
                               CursorFor(sort), Resumes(sort, matching));
  }

  /** Whenever the walk is complete, it takes the fewest pages. */
  lemma CompleteInPages(sort: Sort, matching: set<Item>, limit: int)
    requires sort != OtherSort && DistinctIds(matching) && limit >= 1 && AllTakeAnEnd(sort, matching)
    requires WalkIsComplete(sort, matching, limit)
    ensures WalksInPages(sort, matching, limit)
  {
    var rows, size := Listing(sort, matching), Min(limit, MAX_LIMIT);
    FetcherFetches(sort, matching, limit);
    ListingDistinct(sort, matching);
    ShownIffExact(Fetcher(sort, matching, limit), rows, size, CursorFor(sort), Resumes(sort, matching));
    var pages := ExactCutsShow(Fetcher(sort, matching, limit), rows, size, CursorFor(sort), Resumes(sort, matching));
  }

  // ---- When the walk is complete ----

  /** Newest first: always. */
  lemma RecentWalkIsComplete(matching: set<Item>, limit: int)
    requires DistinctIds(matching) && limit >= 1
    ensures WalksInPages(ByRecent, matching, limit)
  {
    CleanWalk(ByRecent, matching, limit);
  }

  /** By price, with every matching price present. */
  lemma PricedWalk(matching: set<Item>, limit: int)
    requires DistinctIds(matching) && limit >= 1
    requires forall x :: x in matching ==> x.price.Some?
    ensures WalksInPages(ByPrice, matching, limit)
  {
    CleanWalk(ByPrice, matching, limit);
  }

  lemma FirstFetch(sort: Sort, matching: set<Item>, limit: int)
    requires DistinctIds(matching) && limit >= 1
    ensures Fetcher(sort, matching, limit)(None)
         == PageAt(Listing(sort, matching), 0, Min(limit, MAX_LIMIT), CursorFor(sort))
  {
    ListingLists(sort, matching);
    assert SelectsFrom(sort, matching, Listing(sort, matching), None, 0);
    FetchFrom(sort, matching, limit, None, 0);
  }

  lemma SinglePage(sort: Sort, matching: set<Item>, limit: int)
    requires DistinctIds(matching) && limit >= 1 && |matching| <= Min(limit, MAX_LIMIT)
    ensures WalkIsComplete(sort, matching, limit) && WalksInPages(sort, matching, limit)
  {
    var rows := Listing(sort, matching);
    FirstFetch(sort, matching, limit);
    ListingDistinct(sort, matching);
    assert rows[0..] == rows;
    var pages := [rows];
    assert Concat(pages) == rows + Concat(pages[1..]);
    assert Follows(Fetcher(sort, matching, limit), None, pages);
  }

  lemma LastOfSuffix(rows: seq<Item>, k: nat)
    requires k < |rows|
    ensures rows[|rows| - 1] in rows[k..]
  {
    assert rows[k..][|rows| - 1 - k] == rows[|rows| - 1];
  }

  /** Past the first page, a null price is never shown. */
  lemma {:induction false} PricedPages(matching: set<Item>, c: Cursor, limit: int, pages: seq<seq<Item>>)
    requires DistinctIds(matching) && limit >= 1 && c.AtPrice?
    requires Follows(Fetcher(ByPrice, matching, limit), Some(c), pages)
    ensures forall x :: x in Concat(pages) ==> x.price.Some?
    decreases |pages|
  {
    var page := Fetcher(ByPrice, matching, limit)(Some(c));
    var selected := Selected(ByPrice, matching, Some(c));
    ListingLists(ByPrice, selected);
    assert forall x :: x in page.items ==> x in Listing(ByPrice, selected);
    FirstPage(Fetcher(ByPrice, matching, limit), Some(c), pages);
    if page.next.Some? {
      PricedPages(matching, page.next.value, limit, pages[1..]);
    }
  }

  lemma LastIsPriced(matching: set<Item>, rows: seq<Item>, limit: int, pages: seq<seq<Item>>)
    requires DistinctIds(matching) && limit >= 1 && rows == Listing(ByPrice, matching)
    requires |rows| > Min(limit, MAX_LIMIT)
    requires Follows(Fetcher(ByPrice, matching, limit), None, pages) && Concat(pages) == rows
    ensures rows[|rows| - 1].price.Some?
  {
    var size := Min(limit, MAX_LIMIT);
    FirstFetch(ByPrice, matching, limit);
    assert rows[0..] == rows;
    RestShown(Fetcher(ByPrice, matching, limit), None, rows, 0, size, CursorFor(ByPrice), pages);
    PricedPages(matching, CursorOf(ByPrice, rows[size - 1]), limit, pages[1..]);
    LastOfSuffix(rows, size);
  }

  lemma NullIsLast(matching: set<Item>, rows: seq<Item>, x: Item)
    requires Lists(ByPrice, matching, rows) && x in matching && x.price.None?
    ensures rows != [] && rows[|rows| - 1].price.None?
  {
    assert x in rows;
    var i :| 0 <= i < |rows| && rows[i] == x;
    if i < |rows| - 1 {
      assert Before(ByPrice, rows[i], rows[|rows| - 1]);
    }
  }

  /** A walk of more than one page never shows the last null-priced item. */
  lemma NullIsMissed(matching: set<Item>, limit: int, x: Item, pages: seq<seq<Item>>)
    requires DistinctIds(matching) && limit >= 1 && |matching| > Min(limit, MAX_LIMIT)
    requires x in matching && x.price.None?
    requires Follows(Fetcher(ByPrice, matching, limit), None, pages)
    ensures Concat(pages) != Listing(ByPrice, matching)
  {
    ListingDistinct(ByPrice, matching);
    if Concat(pages) == Listing(ByPrice, matching) {
      LastIsPriced(matching, Listing(ByPrice, matching), limit, pages);
      ListingLists(ByPrice, matching);
      NullIsLast(matching, Listing(ByPrice, matching), x);
    }
  }

  /** By price: complete exactly when every matching price is present or one page holds everything. */
  lemma PriceWalkIff(matching: set<Item>, limit: int)
    requires DistinctIds(matching) && limit >= 1
    ensures WalkIsComplete(ByPrice, matching, limit) <==>
            |matching| <= Min(limit, MAX_LIMIT) || forall x :: x in matching ==> x.price.Some?
  {
    if |matching| <= Min(limit, MAX_LIMIT) {
      SinglePage(ByPrice, matching, limit);
    } else if forall x :: x in matching ==> x.price.Some? {
      PricedWalk(matching, limit);
    } else {
      var x :| x in matching && x.price.None?;
      forall pages | Follows(Fetcher(ByPrice, matching, limit), None, pages)
        ensures Concat(pages) != Listing(ByPrice, matching)
      {
        NullIsMissed(matching, limit, x, pages);
      }
    }
  }

  /** Rounding does not lower x's distance, and no later item is at or below x's rounded position. */
  ghost predicate Spared(matching: set<Item>, x: Item) {
    && RoundMm(x.distance) >= x.distance
    && forall y {:trigger Before(ByDistance, x, y)} :: y in matching && Before(ByDistance, x, y) ==>
         y.distance > RoundMm(x.distance) || (y.distance == RoundMm(x.distance) && y.id > x.id)
  }

  /** Rounding spares row i - 1 of the distance listing. */
  ghost function SparedAt(matching: set<Item>): nat -> bool
    requires DistinctIds(matching)
  {
    (i: nat) => 1 <= i <= |Listing(ByDistance, matching)| && Spared(matching, Listing(ByDistance, matching)[i - 1])
  }

  lemma SparedIsResumed(matching: set<Item>, x: Item)
    requires x in matching
    ensures Spared(matching, x) <==> ResumesAfter(ByDistance, matching, x)
  {
    BeforeIsIrreflexive(ByDistance, x);
    if Spared(matching, x) {
      forall y | y in matching
        ensures After(CursorOf(ByDistance, x), y) <==> Before(ByDistance, x, y)
      {
      }
    }
  }

  /** By distance: complete exactly when rounding spares every cut. At a cut, an item rounded down is
      shown again, and one rounded up over other items skips them. */
  lemma DistanceWalkIff(matching: set<Item>, limit: int)
    requires DistinctIds(matching) && limit >= 1
    ensures WalkIsComplete(ByDistance, matching, limit) <==>
            AtCuts(SparedAt(matching), 0, Min(limit, MAX_LIMIT), |matching|)
  {
    CompleteIffClean(ByDistance, matching, limit);
    ListingIn(ByDistance, matching);
    ListingDistinct(ByDistance, matching);
    forall i: nat | 1 <= i < |matching|
      ensures Clean(ByDistance, matching)(i) == SparedAt(matching)(i)
    {
      SparedIsResumed(matching, Listing(ByDistance, matching)[i - 1]);
    }
    SameAtCuts(Clean(ByDistance, matching), SparedAt(matching), 0, Min(limit, MAX_LIMIT), |matching|);
  }

  /** A request's walk is complete, whatever the sort asked for and whether or not a point is given,
      exactly when: by recency, always; by price, if one page holds everything or no price is missing; by
      distance, if rounding spares every cut. A complete walk takes the fewest pages. */
  lemma SearchWalkIff(requested: Sort, hasPoint: bool, matching: set<Item>, limit: int)
    requires DistinctIds(matching) && limit >= 1
    ensures WalkIsComplete(EffectiveSort(requested, hasPoint), matching, limit) <==>
            var size := Min(limit, MAX_LIMIT);
            if requested == ByPrice then |matching| <= size || forall x :: x in matching ==> x.price.Some?
            else if requested == ByRecent || !hasPoint then true
            else AtCuts(SparedAt(matching), 0, size, |matching|)
    ensures WalkIsComplete(EffectiveSort(requested, hasPoint), matching, limit) ==>
            WalksInPages(EffectiveSort(requested, hasPoint), matching, limit)
  {
    match EffectiveSort(requested, hasPoint)
    case ByPrice =>
      PriceWalkIff(matching, limit);
      if |matching| <= Min(limit, MAX_LIMIT) {
        SinglePage(ByPrice, matching, limit);
      } else if forall x :: x in matching ==> x.price.Some? {
        PricedWalk(matching, limit);
      }
    case ByDistance =>
      DistanceWalkIff(matching, limit);
      if WalkIsComplete(ByDistance, matching, limit) {
        CompleteInPages(ByDistance, matching, limit);
      }
    case ByRecent =>
      RecentWalkIsComplete(matching, limit);
  }

  lemma GridPointRounds(k: int)
    ensures RoundMm(GridPoint(k)) == GridPoint(k)
  {
    assert GridPoint(k) * 1000.0 == k as real;
    assert (k as real).Floor == k;
  }

  /** Distances on the millimetre grid are enough. */
  lemma GridWalkIsComplete(matching: set<Item>, limit: int)
    requires DistinctIds(matching) && limit >= 1
    requires forall x :: x in matching ==> exists k: int :: x.distance == GridPoint(k)
    ensures WalksInPages(ByDistance, matching, limit)
  {
    forall x | x in matching
      ensures ResumesAfter(ByDistance, matching, x)
    {
      var k: int :| x.distance == GridPoint(k);
      GridPointRounds(k);
    }
    CleanWalk(ByDistance, matching, limit);
  }

  lemma FirstOfTwo(sort: Sort, a: Item, b: Item, cursor: Option<Cursor>)
    requires a.id != b.id && Before(sort, a, b) && Selected(sort, {a, b}, cursor) == {a, b}
    ensures DistinctIds({a, b})
    ensures Fetcher(sort, {a, b}, 1)(cursor) == Page([a], Some(CursorOf(sort, a)))
  {
    assert Lists(sort, {a, b}, [a, b]);
    ListingLists(sort, {a, b});
    ListingUnique(sort, {a, b}, Listing(sort, {a, b}), [a, b]);
    PageIsPrefix(sort, [a, b], 1);
  }

  /** Two items 0.4 mm and 1 m away, one per page: the cursor of the first leads back to it, so that no
      number of pages ends the walk. */
  lemma OffGridCounterexample()
    ensures var matching := {Item(1, 0, None, 0.0004), Item(2, 0, None, 1.0)};
            && DistinctIds(matching) && !WalkIsComplete(ByDistance, matching, 1)
            && forall pages :: !Follows(Fetcher(ByDistance, matching, 1), None, pages)
  {
    var a, b := Item(1, 0, None, 0.0004), Item(2, 0, None, 1.0);
    var matching := {a, b};
    assert (0.4 as real).Floor == 0;
    var cursor := CursorOf(ByDistance, a);
    assert cursor == AtDistance(0.0, 1);
    FirstOfTwo(ByDistance, a, b, None);
    FirstOfTwo(ByDistance, a, b, Some(cursor));
    var fetch := Fetcher(ByDistance, matching, 1);
    forall pages ensures !Follows(fetch, None, pages) {
      if Follows(fetch, None, pages) {
        FirstPage(fetch, None, pages);
        LoopNeverEnds(fetch, cursor, pages[1..]);
      }
    }
  }

  /** Two items without a price, one per page: the second is never shown. */
  lemma NullPriceCounterexample()
    ensures !WalkIsComplete(ByPrice, {Item(1, 0, None, 0.0), Item(2, 0, None, 0.0)}, 1)
  {
    var matching := {Item(1, 0, None, 0.0), Item(2, 0, None, 0.0)};
    PriceWalkIff(matching, 1);
  }
}
