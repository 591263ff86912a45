/**
 * The stock-action tracker table: the fixture pre-sorted newest first with
 * its three newest records flagged, the shared filters applied to
 * `effectiveDate`, and a pager of five rows per page.
 */
module StockTracking {
  import opened Types
  import opened Seqs
  import opened ActionQuery

  const ALL_TYPES_VALUE: string := "all"

  const ITEMS_PER_PAGE: nat := 5

  /**
   * The comparator of the module-level sort, `b - a` on the announcement
   * times, orders records exactly as `Compare` does under the default
   * configuration (newest first).
   */
  lemma DifferenceComparator(a: StockAction, b: StockAction)
    ensures KeyOf(b, DefaultSort) - KeyOf(a, DefaultSort) < 0 <==> Compare(a, b, DefaultSort) < 0
    ensures KeyOf(b, DefaultSort) - KeyOf(a, DefaultSort) == 0 <==> Compare(a, b, DefaultSort) == 0
  {
  }

  /** `sortedMockActions`. */
  function SortedMockActions(mock: seq<StockAction>): (sorted: seq<StockAction>)
    ensures |sorted| == |mock|
    ensures Ordered(sorted, DefaultSort)
  {
    SortByOrdered(mock, DefaultSort);
    SortBy(mock, DefaultSort)
  }

  /** The pre-sorted list is the fixture, newest announcement first. */
  lemma SortedMockActionsSpec(mock: seq<StockAction>)
    ensures var s := SortedMockActions(mock);
      && multiset(s) == multiset(mock)
      && forall i, j :: 0 <= i < j < |s| ==> DayNumber(s[i].announcementDate) >= DayNumber(s[j].announcementDate)
  {
    SortByPermutes(mock, DefaultSort);
    SortByOrdered(mock, DefaultSort);
  }

  /** `newestActionIds`: the ids of the first three records of the pre-sorted list. */
  function NewestActionIds(mock: seq<StockAction>): (ids: seq<string>)
    ensures |ids| == Min(3, |mock|)
  {
    var s := SortedMockActions(mock);
    var top := s[..Min(3, |s|)];
    seq(|top|, i requires 0 <= i < |top| => top[i].id)
  }

  /**
   * The flagged ids are those of the first three records (all of them when
   * there are fewer), and no other record was announced later than a
   * flagged one.
   */
  lemma NewestActionIdsSpec(mock: seq<StockAction>)
    ensures var s := SortedMockActions(mock);
      var ids := NewestActionIds(mock);
      && (forall i :: 0 <= i < |ids| ==> ids[i] == s[i].id)
      && (forall i, j :: 0 <= i < |ids| <= j < |s| ==>
            DayNumber(s[i].announcementDate) >= DayNumber(s[j].announcementDate))
  {
    SortedMockActionsSpec(mock);
  }

  // ---------------------------------------------------------------------
  // Pagination
  // ---------------------------------------------------------------------

  /** `Math.ceil(n / ITEMS_PER_PAGE)`. */
  function TotalPages(n: nat): (pages: nat)
    ensures pages * ITEMS_PER_PAGE >= n
    ensures pages == 0 || (pages - 1) * ITEMS_PER_PAGE < n
  {
    (n + ITEMS_PER_PAGE - 1) / ITEMS_PER_PAGE
  }

  /** `s.slice(start, end)`: negative indices count from the end, and both are clamped to `[0, |s|]`. */
  function JsSlice<T>(s: seq<T>, start: int, end: int): (r: seq<T>)
    ensures |r| <= |s|
  {
    var from := if start < 0 then Max(|s| + start, 0) else Min(start, |s|);
    var to := if end < 0 then Max(|s| + end, 0) else Min(end, |s|);
    if from < to then s[from..to] else []
  }

  /** `paginatedActions`: the rows of page `page`. */
  function PageOf<T>(filtered: seq<T>, page: int): (rows: seq<T>)
    ensures |rows| <= ITEMS_PER_PAGE
    ensures 1 <= page ==>
      rows == filtered[Min((page - 1) * ITEMS_PER_PAGE, |filtered|)..Min(page * ITEMS_PER_PAGE, |filtered|)]
  {
    var startIndex := (page - 1) * ITEMS_PER_PAGE;
    var endIndex := startIndex + ITEMS_PER_PAGE;
    JsSlice(filtered, startIndex, endIndex)
  }

  /** Pages `from` to `TotalPages(|filtered|)` one after another. */
  function PagesFrom<T>(filtered: seq<T>, from: nat): seq<T>
    requires from >= 1
    decreases TotalPages(|filtered|) + 1 - from
  {
    if from > TotalPages(|filtered|) then [] else PageOf(filtered, from) + PagesFrom(filtered, from + 1)
  }

  lemma {:induction false} PagesFromSuffix<T>(filtered: seq<T>, from: nat)
    requires from >= 1
    ensures PagesFrom(filtered, from) == filtered[Min((from - 1) * ITEMS_PER_PAGE, |filtered|)..]
    decreases TotalPages(|filtered|) + 1 - from
  {
    if from <= TotalPages(|filtered|) {
      PagesFromSuffix(filtered, from + 1);
      var a := Min((from - 1) * ITEMS_PER_PAGE, |filtered|);
      var b := Min(from * ITEMS_PER_PAGE, |filtered|);
      assert filtered[a..] == filtered[a..b] + filtered[b..];
    }
  }

  /** The pages, in order, are the whole filtered list: no row is lost, repeated or moved. */
  lemma PagesPartition<T>(filtered: seq<T>)
    ensures PagesFrom(filtered, 1) == filtered
  {
    PagesFromSuffix(filtered, 1);
  }

  /** Twelve rows make three pages, the last holding two. */
  lemma TwelveRows<T>(filtered: seq<T>)
    requires |filtered| == 12
    ensures TotalPages(|filtered|) == 3
    ensures PageOf(filtered, 3) == filtered[10..]
  {
  }

  /** `handlePreviousPage`. */
  function PreviousPage(page: int): (prev: int)
    ensures prev >= 1
    ensures page >= 2 ==> prev == page - 1
    ensures page <= 1 ==> prev == 1
  {
    Max(page - 1, 1)
  }

  /** `handleNextPage`. */
  function NextPage(page: int, totalPages: int): (next: int)
    ensures next <= totalPages
    ensures page + 1 <= totalPages ==> next == page + 1
    ensures page + 1 > totalPages ==> next == totalPages
  {
    Min(page + 1, totalPages)
  }

  predicate PagerVisible(totalPages: nat)
  {
    totalPages > 1
  }

  predicate PreviousDisabled(page: int)
  {
    page == 1
  }

  predicate NextDisabled(page: int, totalPages: int)
  {
    page == totalPages
  }

  /**
   * On a page in range, Previous and Next stay in range; Previous moves
   * back one page unless on page 1, and Next forward one unless on the last.
   */
  lemma NavigationInRange(page: int, totalPages: nat)
    requires 1 <= page <= totalPages
    ensures 1 <= PreviousPage(page) <= totalPages && 1 <= NextPage(page, totalPages) <= totalPages
    ensures PreviousPage(page) == (if page == 1 then 1 else page - 1)
    ensures NextPage(page, totalPages) == (if page == totalPages then page else page + 1)
  {
  }

  /** A button is disabled exactly when pressing it would leave the page unchanged. */
  lemma DisabledMeansNoMove(page: int, totalPages: nat)
    requires PagerVisible(totalPages) && 1 <= page <= totalPages
    ensures PreviousDisabled(page) <==> PreviousPage(page) == page
    ensures NextDisabled(page, totalPages) <==> NextPage(page, totalPages) == page
  {
  }

  /** The component's state. */
  class StockActionTracker {
    const actions: seq<StockAction>
    var filteredActions: seq<StockAction>
    var searchTerm: string
    var selectedActionType: string
    var dateRange: Option<DateRange>
    var currentPage: int

    /** The shown list is the current filters' selection of the pre-sorted list. */
    predicate Shown()
      reads this
    {
      filteredActions == Selected(actions, searchTerm, selectedActionType, dateRange, EffectiveDate)
    }

    /** Before any recompute the whole pre-sorted list is shown, from page 1. */
    constructor (mock: seq<StockAction>)
      ensures actions == SortedMockActions(mock) && filteredActions == actions
      ensures searchTerm == "" && selectedActionType == "" && dateRange == None
      ensures currentPage == 1
      ensures Shown()
    {
      actions := SortedMockActions(mock);
      filteredActions := SortedMockActions(mock);
      searchTerm := "";
      selectedActionType := "";
      dateRange := None;
      currentPage := 1;
      new;
      FilterAll(actions, a => Matches(a, "", "", None, EffectiveDate));
    }

    function TotalPagesNow(): nat
      reads this
    {
      TotalPages(|filteredActions|)
    }

    function PaginatedActions(): (rows: seq<StockAction>)
      reads this
      ensures |rows| <= ITEMS_PER_PAGE
    {
      PageOf(filteredActions, currentPage)
    }

    /** The effect body: filter a copy of the list step by step, then go back to page 1. */
    method Recompute()
      modifies this`filteredActions, this`currentPage
      ensures Shown() && currentPage == 1
    {
      filteredActions := ApplyFilters(actions, searchTerm, selectedActionType, dateRange, EffectiveDate);
      currentPage := 1;
    }

    /**
     * Setting the search text: the effect runs only when the text changes,
     * since an equal string leaves the effect's dependencies as they were.
     */
    method SetSearchTerm(term: string)
      modifies this`searchTerm, this`filteredActions, this`currentPage
      ensures searchTerm == term
      ensures old(searchTerm) != term ==> Shown() && currentPage == 1
      ensures old(searchTerm) == term ==> filteredActions == old(filteredActions) && currentPage == old(currentPage)
      ensures old(Shown()) ==> Shown()
    {
      if term != searchTerm {
        searchTerm := term;
        Recompute();
      }
    }

    /** Picking a date range: the picker hands over a new object, so the effect always runs. */
    method SetDateRange(range: Option<DateRange>)
      modifies this`dateRange, this`filteredActions, this`currentPage
      ensures dateRange == range
      ensures Shown() && currentPage == 1
    {
      dateRange := range;
      Recompute();
    }

    /** `handleActionTypeChange`: "all" clears the type filter; the effect runs only on a change. */
    method HandleActionTypeChange(value: string)
      modifies this`selectedActionType, this`filteredActions, this`currentPage
      ensures selectedActionType == (if value == ALL_TYPES_VALUE then "" else value)
      ensures old(selectedActionType) != selectedActionType ==> Shown() && currentPage == 1
      ensures old(selectedActionType) == selectedActionType ==>
        filteredActions == old(filteredActions) && currentPage == old(currentPage)
      ensures old(Shown()) ==> Shown()
    {
      var selected := if value == ALL_TYPES_VALUE then "" else value;
      if selected != selectedActionType {
        selectedActionType := selected;
        Recompute();
      }
    }

    /**
     * `handleClearFilters`: the filters only. When some filter was set, the
     * effect shows the whole pre-sorted list again from page 1; when none
     * was, nothing changes and the page is kept.
     */
    method ClearFilters()
      modifies this`searchTerm, this`selectedActionType, this`dateRange, this`filteredActions, this`currentPage
      ensures searchTerm == "" && selectedActionType == "" && dateRange == None
      ensures old(searchTerm) != "" || old(selectedActionType) != "" || old(dateRange) != None ==>
        filteredActions == actions && currentPage == 1
      ensures old(searchTerm) == "" && old(selectedActionType) == "" && old(dateRange) == None ==>
        filteredActions == old(filteredActions) && currentPage == old(currentPage)
      ensures old(Shown()) ==> Shown()
    {
      if searchTerm != "" || selectedActionType != "" || dateRange != None {
        searchTerm := "";
        selectedActionType := "";
        dateRange := None;
        Recompute();
      }
      FilterAll(actions, a => Matches(a, "", "", None, EffectiveDate));
    }

    /** `handlePreviousPage`. */
    method HandlePreviousPage()
      modifies this`currentPage
      ensures currentPage == PreviousPage(old(currentPage))
      ensures old(currentPage) >= 1 ==> 1 <= currentPage <= old(currentPage)
    {
      currentPage := if currentPage - 1 > 1 then currentPage - 1 else 1;
    }

    /** `handleNextPage`. */
    method HandleNextPage()
      modifies this`currentPage
      ensures currentPage == NextPage(old(currentPage), TotalPagesNow())
      ensures 1 <= old(currentPage) <= TotalPagesNow() ==> old(currentPage) <= currentPage <= TotalPagesNow()
    {
      var totalPages := TotalPages(|filteredActions|);
      currentPage := if currentPage + 1 < totalPages then currentPage + 1 else totalPages;
    }

    /** `handleExportCSV`. */
    method HandleExportCsv() returns (outcome: ExportOutcome)
      ensures outcome.NoDataWarning? <==> filteredActions == []
      ensures outcome.Exported? ==>
        Csv.Decode(outcome.csv) == Some(Csv.Table(ExportRows(filteredActions)))
    {
      if |filteredActions| == 0 {
        return NoDataWarning;
      }
      outcome := ExportFiltered(filteredActions);
    }
  }
}
