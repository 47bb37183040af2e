/** The browser's results table (app/static/js/log_search.js): refinement and
    pagination. */
module ResultsTable {
  import opened Prelude
  import opened Text

  // ---------- Pagination ----------

  function TotalPages(rows: nat, pageSize: nat): (p: nat)
    requires pageSize > 0
    ensures p >= 1
  {
    var pages := (rows + pageSize - 1) / pageSize;
    if pages < 1 then 1 else pages
  }

  function Clamp(n: int, hi: nat): (r: nat)
    ensures r <= hi
  {
    if n < 0 then 0 else if n <= hi then n else hi
  }

  /** What page `page` shows: `slice(start, start + pageSize)`. */
  function PageSlice<Row>(rows: seq<Row>, page: nat, pageSize: nat): seq<Row>
    requires page >= 1
  {
    var start := (page - 1) * pageSize;
    rows[Clamp(start, |rows|)..Clamp(start + pageSize, |rows|)]
  }

  /** Pages 1..n, one after the other. */
  function Pages<Row>(rows: seq<Row>, n: nat, pageSize: nat): seq<Row> {
    if n == 0 then [] else Pages(rows, n - 1, pageSize) + PageSlice(rows, n, pageSize)
  }

  lemma NextPage(n: nat, pageSize: nat)
    requires n >= 1
    ensures (n - 1) * pageSize + pageSize == n * pageSize && (n - 1) * pageSize >= 0
  {
  }

  lemma {:induction false} PagesAreAPrefix<Row>(rows: seq<Row>, n: nat, pageSize: nat)
    ensures Pages(rows, n, pageSize) == rows[..Clamp(n * pageSize, |rows|)]
  {
    if n == 0 {
    } else {
      PagesAreAPrefix(rows, n - 1, pageSize);
      NextPage(n, pageSize);
      PrefixGrows(rows, Clamp((n - 1) * pageSize, |rows|), Clamp(n * pageSize, |rows|));
    }
  }

  lemma PrefixGrows<Row>(rows: seq<Row>, a: nat, b: nat)
    requires a <= b <= |rows|
    ensures rows[..a] + rows[a..b] == rows[..b]
  {
  }

  lemma EnoughPages(rows: nat, pageSize: nat)
    requires pageSize > 0
    ensures TotalPages(rows, pageSize) * pageSize >= rows
  {
    var q := (rows + pageSize - 1) / pageSize;
    var r := (rows + pageSize - 1) % pageSize;
    assert rows + pageSize - 1 == q * pageSize + r && r < pageSize;
    if q < 1 {
      assert q * pageSize == 0;
    }
  }

  /** Every page but the last is full, and no page is empty while there are rows. */
  lemma PagesAreFull<Row>(rows: seq<Row>, page: nat, pageSize: nat)
    requires pageSize > 0 && 1 <= page <= TotalPages(|rows|, pageSize)
    ensures page < TotalPages(|rows|, pageSize) ==> |PageSlice(rows, page, pageSize)| == pageSize
    ensures rows != [] ==> 0 < |PageSlice(rows, page, pageSize)| <= pageSize
  {
    StartIsInRange(|rows|, page, pageSize);
    NextPage(page, pageSize);
    if page < TotalPages(|rows|, pageSize) {
      StartIsInRange(|rows|, page + 1, pageSize);
    }
  }

  /** The pages together are exactly the visible rows, each once and in order. */
  lemma PagesShowEverythingOnce<Row>(rows: seq<Row>, pageSize: nat)
    requires pageSize > 0
    ensures Pages(rows, TotalPages(|rows|, pageSize), pageSize) == rows
  {
    PagesAreAPrefix(rows, TotalPages(|rows|, pageSize), pageSize);
    EnoughPages(|rows|, pageSize);
  }

  /** The first `n` rows that pass the refinement; None if evaluating it throws. */
  function Refined<Row>(rows: seq<Row>, matches: Row -> Option<bool>, negate: bool): Option<seq<Row>> {
    if rows == [] then Some([])
    else
      var before := Refined(rows[..|rows| - 1], matches, negate);
      var m := matches(rows[|rows| - 1]);
      if before.None? || m.None? then None
      else Some(before.value + if m.value != negate then [rows[|rows| - 1]] else [])
  }

  lemma {:induction false} RefinedFails<Row>(rows: seq<Row>, matches: Row -> Option<bool>, negate: bool, n: nat)
    requires n <= |rows| && Refined(rows[..n], matches, negate).None?
    ensures Refined(rows, matches, negate).None?
    decreases |rows|
  {
    if n < |rows| {
      assert rows[..|rows| - 1][..n] == rows[..n];
      RefinedFails(rows[..|rows| - 1], matches, negate, n);
    } else {
      assert rows[..n] == rows;
    }
  }

  /** The places are in order, and are those of the rows to show. */
  predicate ShownAt<Row>(rows: seq<Row>, matches: Row -> Option<bool>, negate: bool, places: seq<nat>) {
    && (forall j, k :: 0 <= j < k < |places| ==> places[j] < places[k])
    && (forall j :: 0 <= j < |places| ==> places[j] < |rows|)
    && (forall i :: 0 <= i < |rows| ==> (i in places <==> matches(rows[i]) == Some(!negate)))
  }

  /** The places of the rows to show. */
  function Places<Row>(rows: seq<Row>, matches: Row -> Option<bool>, negate: bool): seq<nat> {
    if rows == [] then []
    else
      var n := |rows| - 1;
      Places(rows[..n], matches, negate) + if matches(rows[n]) == Some(!negate) then [n] else []
  }

  lemma {:induction false} PlacesAreShown<Row>(rows: seq<Row>, matches: Row -> Option<bool>, negate: bool)
    ensures ShownAt(rows, matches, negate, Places(rows, matches, negate))
  {
    if rows == [] {
    } else {
      var n := |rows| - 1;
      PlacesAreShown(rows[..n], matches, negate);
      assert forall i :: 0 <= i < n ==> rows[..n][i] == rows[i];
      assert n !in Places(rows[..n], matches, negate);
    }
  }

  function RowsAt<Row>(rows: seq<Row>, places: seq<nat>): seq<Row>
    requires forall j :: 0 <= j < |places| ==> places[j] < |rows|
  {
    seq(|places|, j requires 0 <= j < |places| => rows[places[j]])
  }

  /** A refinement fails exactly if the test throws on some row. */
  lemma {:induction false} RefinedFailsOnAThrow<Row>(rows: seq<Row>, matches: Row -> Option<bool>, negate: bool)
    ensures Refined(rows, matches, negate).None? <==> exists i :: 0 <= i < |rows| && matches(rows[i]).None?
  {
    if rows == [] {
    } else {
      var n := |rows| - 1;
      RefinedFailsOnAThrow(rows[..n], matches, negate);
      assert forall i :: 0 <= i < n ==> rows[..n][i] == rows[i];
    }
  }

  /** Otherwise it shows the rows that match (or, negated, that do not), each as often and
      in the order in which they stand. */
  lemma {:induction false} RefinedShowsTheMatches<Row>(rows: seq<Row>, matches: Row -> Option<bool>, negate: bool)
    requires Refined(rows, matches, negate).Some?
    ensures ShownAt(rows, matches, negate, Places(rows, matches, negate))
    ensures Refined(rows, matches, negate).value == RowsAt(rows, Places(rows, matches, negate))
  {
    PlacesAreShown(rows, matches, negate);
    if rows == [] {
    } else {
      var n := |rows| - 1;
      RefinedShowsTheMatches(rows[..n], matches, negate);
      var before := Places(rows[..n], matches, negate);
      assert RowsAt(rows[..n], before) == RowsAt(rows, before);
      assert RowsAt(rows, before + [n]) == RowsAt(rows, before) + [rows[n]];
    }
  }

  class Table<Row(==)> {
    var currentRows: seq<Row>
    var visibleRows: seq<Row>
    var currentPage: int
    var pageSize: nat

    predicate Valid()
      reads this
    {
      pageSize > 0 && 1 <= currentPage <= TotalPages(|visibleRows|, pageSize)
    }

    constructor ()
      ensures Valid() && currentRows == visibleRows == [] && currentPage == 1 && pageSize == 25
    {
      currentRows, visibleRows, currentPage, pageSize := [], [], 1, 25;
    }

    /** A new search result. */
    method RenderResults(rows: seq<Row>)
      requires Valid()
      modifies this
      ensures Valid() && currentRows == visibleRows == rows && currentPage == 1 && pageSize == old(pageSize)
    {
      currentRows := rows;
      visibleRows := currentRows;
      currentPage := 1;
    }

    /** `matches` is the trimmed term's test, None where building the regular expression
        throws. A failed refinement leaves rows and page as they were. */
    method ApplyRefineFilter(termIsBlank: bool, matches: Row -> Option<bool>, negate: bool)
      requires Valid()
      modifies this
      ensures Valid() && currentRows == old(currentRows) && pageSize == old(pageSize)
      ensures var refined := if termIsBlank then Some(currentRows) else Refined(currentRows, matches, negate);
              && (refined.Some? ==> visibleRows == refined.value && currentPage == 1)
              && (refined.None? ==> visibleRows == old(visibleRows) && currentPage == old(currentPage))
    {
      if termIsBlank {
        visibleRows := currentRows;
        currentPage := 1;
        return;
      }
      var kept: seq<Row> := [];
      for n := 0 to |currentRows|
        invariant currentRows == old(currentRows) && visibleRows == old(visibleRows)
        invariant currentPage == old(currentPage) && pageSize == old(pageSize)
        invariant Refined(currentRows[..n], matches, negate) == Some(kept)
      {
        assert currentRows[..n + 1][..n] == currentRows[..n];
        var m := matches(currentRows[n]);
        if m.None? {
          RefinedFails(currentRows, matches, negate, n + 1);
          return;
        }
        assert kept + [] == kept;
        if m.value != negate {
          kept := kept + [currentRows[n]];
        }
      }
      assert currentRows[..|currentRows|] == currentRows;
      visibleRows := kept;
      currentPage := 1;
    }

    method GoToPage(page: int)
      requires pageSize > 0
      modifies this`currentPage
      ensures Valid()
      ensures 1 <= page <= TotalPages(|visibleRows|, pageSize) ==> currentPage == page
      ensures page < 1 ==> currentPage == 1
      ensures page > TotalPages(|visibleRows|, pageSize) ==> currentPage == TotalPages(|visibleRows|, pageSize)
    {
      var atLeastOne := if page < 1 then 1 else page;
      var last := TotalPages(|visibleRows|, pageSize);
      currentPage := if atLeastOne <= last then atLeastOne else last;
    }

    /** The page-size selector; its options are positive. */
    method ChangePageSize(size: nat)
      requires Valid() && size > 0
      modifies this
      ensures Valid() && currentPage == 1 && pageSize == size
      ensures currentRows == old(currentRows) && visibleRows == old(visibleRows)
    {
      pageSize := size;
      GoToPage(1);
    }

    /** The rows on screen. */
    method RenderPage() returns (pageRows: seq<Row>)
      requires Valid()
      ensures pageRows == PageSlice(visibleRows, currentPage, pageSize)
      ensures visibleRows != [] ==> pageRows != []
    {
      var start := (currentPage - 1) * pageSize;
      StartIsInRange(|visibleRows|, currentPage, pageSize);
      pageRows := visibleRows[Clamp(start, |visibleRows|)..Clamp(start + pageSize, |visibleRows|)];
    }
  }

  lemma StartIsInRange(rows: nat, page: nat, pageSize: nat)
    requires pageSize > 0 && 1 <= page <= TotalPages(rows, pageSize)
    ensures (page - 1) * pageSize >= 0
    ensures rows > 0 ==> (page - 1) * pageSize < rows
  {
    var q := (rows + pageSize - 1) / pageSize;
    var r := (rows + pageSize - 1) % pageSize;
    assert rows + pageSize - 1 == q * pageSize + r;
    if rows > 0 {
      assert (q - 1) * pageSize == q * pageSize - pageSize;
      assert q <= 0 ==> q * pageSize <= 0;
      MoreIsMore(page - 1, q - 1, pageSize);
    }
  }

  lemma MoreIsMore(a: nat, b: nat, c: nat)
    requires a <= b
    ensures a * c <= b * c
  {
    assert (b - a) * c >= 0;
    assert b * c == a * c + (b - a) * c;
  }
}
