/**
 * The holding-processing table: a fixed base list of the three holding
 * action types, four pieces of filter state, a sort configuration that the
 * column headers toggle, and the list the table shows, recomputed whenever
 * any of them changes.
 */
module HoldingProcessing {
  import opened Types
  import opened Seqs
  import opened ActionQuery

  /** The select option that stands for "no type filter". */
  const ALL_TYPES_VALUE: string := "all"

  /** Whether an action type is listed in `HOLDING_ACTION_TYPES`. */
  predicate ListedHolding(t: ActionType)
  {
    exists i :: 0 <= i < |HOLDING_ACTION_TYPES| && HOLDING_ACTION_TYPES[i] == t
  }

  /** The base list: the fixture records whose type `HOLDING_ACTION_TYPES` includes. */
  function HoldingBase(mock: seq<StockAction>): (base: seq<StockAction>)
    ensures |base| <= |mock|
    ensures forall i :: 0 <= i < |base| ==> IsHolding(base[i].actionType)
  {
    Filter(mock, (a: StockAction) => ListedHolding(a.actionType))
  }

  /**
   * The base list keeps the fixture's order and holds exactly the records of
   * the three holding types.
   */
  lemma HoldingBaseIsHoldingRecords(mock: seq<StockAction>)
    ensures IsSubseq(HoldingBase(mock), mock)
    ensures forall a :: a in HoldingBase(mock) <==> a in mock && IsHolding(a.actionType)
    ensures HoldingBase(mock) == Filter(mock, (a: StockAction) => IsHolding(a.actionType))
  {
    var p := (a: StockAction) => ListedHolding(a.actionType);
    FilterIsSubseq(mock, p);
    forall t ensures ListedHolding(t) <==> IsHolding(t) {
      HoldingTypesAreStockTypes();
      if IsHolding(t) {
        assert t in HOLDING_ACTION_TYPES;
      }
    }
    forall a ensures a in Filter(mock, p) <==> a in mock && IsHolding(a.actionType) {
      FilterMembers(mock, p, a);
    }
    FilterExt(mock, p, (a: StockAction) => IsHolding(a.actionType));
  }

  /** What the table shows: the records that pass the filters on `announcementDate`, stably sorted by `cfg`. */
  function HoldingView(actions: seq<StockAction>, term: string, selected: string,
                       range: Option<DateRange>, cfg: SortConfig): (view: seq<StockAction>)
    ensures |view| <= |actions|
    ensures Ordered(view, cfg)
  {
    var s := Selected(actions, term, selected, range, AnnouncementDate);
    SortByOrdered(s, cfg);
    SortBy(s, cfg)
  }

  /**
   * The view holds exactly the matching records, each as often as in the
   * filtered list, in the configured date order, and records with equal
   * dates stay in base-list order.
   */
  lemma HoldingViewSpec(actions: seq<StockAction>, term: string, selected: string,
                        range: Option<DateRange>, cfg: SortConfig)
    ensures var v := HoldingView(actions, term, selected, range, cfg);
      var s := Selected(actions, term, selected, range, AnnouncementDate);
      && (forall a :: a in v <==> a in actions && Matches(a, term, selected, range, AnnouncementDate))
      && multiset(v) == multiset(s)
      && Ordered(v, cfg)
      && (forall d :: WithKey(v, cfg, d) == WithKey(s, cfg, d))
  {
    var s := Selected(actions, term, selected, range, AnnouncementDate);
    SelectedIsExactly(actions, term, selected, range, AnnouncementDate);
    SortByPermutes(s, cfg);
    SortByOrdered(s, cfg);
    forall d ensures WithKey(SortBy(s, cfg), cfg, d) == WithKey(s, cfg, d) {
      SortByStable(s, cfg, d);
    }
    forall a ensures a in SortBy(s, cfg) <==> a in s {
      assert a in SortBy(s, cfg) <==> a in multiset(SortBy(s, cfg));
    }
  }

  /** With every filter cleared, the view is the whole base list in the configured order. */
  lemma UnfilteredView(actions: seq<StockAction>, cfg: SortConfig)
    ensures HoldingView(actions, "", "", None, cfg) == SortBy(actions, cfg)
  {
    FilterAll(actions, a => Matches(a, "", "", None, AnnouncementDate));
  }

  /** The select's value as a type filter: "all" means no filter. */
  function TypeSelection(value: string): (selected: string)
    ensures selected == "" <==> value == ALL_TYPES_VALUE || value == ""
    ensures selected != "" ==> selected == value
  {
    if value == ALL_TYPES_VALUE then "" else value
  }

  /** `requestSort`: the sort configuration after clicking the header of `key`. */
  function NextSortConfig(cfg: SortConfig, key: DateField): (next: SortConfig)
    ensures next.key == key
  {
    if cfg.key == key && cfg.direction == Ascending then SortConfig(key, Descending)
    else SortConfig(key, Ascending)
  }

  /** Clicking a header sorts descending exactly when that column was already ascending, and ascending otherwise. */
  lemma RequestSortToggles(cfg: SortConfig, key: DateField)
    ensures NextSortConfig(cfg, key) == SortConfig(key, Descending) <==> cfg == SortConfig(key, Ascending)
    ensures NextSortConfig(cfg, key) == SortConfig(key, Ascending) <==> cfg != SortConfig(key, Ascending)
    ensures NextSortConfig(NextSortConfig(cfg, key), key) != NextSortConfig(cfg, key)
  {
  }

  /** `getSortIndicator`: an arrow only in the header of the active column. */
  function SortIndicator(cfg: SortConfig, key: DateField): (r: Option<string>)
    ensures r.Some? <==> cfg.key == key
    ensures r.Some? ==> (r.value == "▲" <==> cfg.direction == Ascending)
  {
    if cfg.key != key then None
    else if cfg.direction == Ascending then Some("▲") else Some("▼")
  }

  /** The component's state: what is on screen and what produced it. */
  class HoldingProcessor {
    const actions: seq<StockAction>
    var filteredActions: seq<StockAction>
    var searchTerm: string
    var selectedActionType: string
    var dateRange: Option<DateRange>
    var sortConfig: SortConfig

    /** The shown list is the view of the current filters and sort. */
    predicate Shown()
      reads this
    {
      filteredActions == HoldingView(actions, searchTerm, selectedActionType, dateRange, sortConfig)
    }

    /** The initial state of the component, before its first recompute. */
    constructor (mock: seq<StockAction>)
      ensures actions == HoldingBase(mock)
      ensures filteredActions == []
      ensures searchTerm == "" && selectedActionType == "" && dateRange == None
      ensures sortConfig == DefaultSort
    {
      actions := HoldingBase(mock);
      filteredActions := [];
      searchTerm := "";
      selectedActionType := "";
      dateRange := None;
      sortConfig := DefaultSort;
    }

    /** The effect body: filter a copy of the base list step by step, then sort it in place. */
    method Recompute()
      modifies this`filteredActions
      ensures Shown()
    {
      var current := ApplyFilters(actions, searchTerm, selectedActionType, dateRange, AnnouncementDate);
      var buffer := new StockAction[|current|](i requires 0 <= i < |current| => current[i]);
      assert buffer[..] == current;
      SortInPlace(buffer, sortConfig);
      filteredActions := buffer[..];
    }

    /**
     * Setting the search text: the effect runs only when the text changes,
     * since an equal string leaves the effect's dependencies as they were.
     */
    method SetSearchTerm(term: string)
      modifies this`searchTerm, this`filteredActions
      ensures searchTerm == term
      ensures old(searchTerm) != term ==> Shown()
      ensures old(searchTerm) == term ==> filteredActions == old(filteredActions)
      ensures old(Shown()) ==> Shown()
    {
      if term != searchTerm {
        searchTerm := term;
        Recompute();
      }
    }

    /** Picking a date range: the picker hands over a new object, so the effect always runs. */
    method SetDateRange(range: Option<DateRange>)
      modifies this`dateRange, this`filteredActions
      ensures dateRange == range
      ensures Shown()
    {
      dateRange := range;
      Recompute();
    }

    /** `handleActionTypeChange`: "all" clears the type filter; the effect runs only on a change. */
    method HandleActionTypeChange(value: string)
      modifies this`selectedActionType, this`filteredActions
      ensures selectedActionType == TypeSelection(value)
      ensures old(selectedActionType) != selectedActionType ==> Shown()
      ensures old(selectedActionType) == selectedActionType ==> filteredActions == old(filteredActions)
      ensures old(Shown()) ==> Shown()
    {
      var selected := if value == ALL_TYPES_VALUE then "" else value;
      if selected != selectedActionType {
        selectedActionType := selected;
        Recompute();
      }
    }

    /** `requestSort`: a new configuration object, so the effect always runs. */
    method RequestSort(key: DateField)
      modifies this`sortConfig, this`filteredActions
      ensures sortConfig == NextSortConfig(old(sortConfig), key)
      ensures Shown()
    {
      var direction := Ascending;
      if sortConfig.key == key && sortConfig.direction == Ascending {
        direction := Descending;
      }
      sortConfig := SortConfig(key, direction);
      Recompute();
    }

    /** `handleClearFilters`: back to the initial filters and a new default sort object, so the effect runs. */
    method ClearFilters()
      modifies this
      ensures searchTerm == "" && selectedActionType == "" && dateRange == None
      ensures sortConfig == DefaultSort
      ensures filteredActions == SortBy(actions, DefaultSort)
      ensures Shown()
    {
      searchTerm := "";
      selectedActionType := "";
      dateRange := None;
      sortConfig := DefaultSort;
      Recompute();
      UnfilteredView(actions, DefaultSort);
    }

    /** `handleExportCSV`: the warning on an empty table, otherwise the table as CSV. */
    method HandleExportCsv() returns (outcome: ExportOutcome)
      ensures outcome.NoDataWarning? <==> filteredActions == []
      ensures outcome.Exported? ==>
        Csv.Decode(outcome.csv) == Some(Csv.Table(ExportRows(filteredActions)))
    {
      if |filteredActions| == 0 {
        return NoDataWarning;
      }
      outcome := ExportFiltered(filteredActions);
    }
  }
}
