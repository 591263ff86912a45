/**
 * The query pipeline both dashboard tables run over their records: the
 * search, action-type and date-range filters, the date-column sort, and
 * the CSV export of what is on screen.
 */
module ActionQuery {
  import opened Types
  import opened Seqs
  import Csv

  // ---------------------------------------------------------------------
  // Dates and ranges
  // ---------------------------------------------------------------------

  /** `SortableKeys`: the two date columns. */
  datatype DateField = AnnouncementDate | EffectiveDate

  function DateOf(a: StockAction, f: DateField): Date
  {
    match f
    case AnnouncementDate => a.announcementDate
    case EffectiveDate => a.effectiveDate
  }

  function DayOf(a: StockAction, f: DateField): int
  {
    DayNumber(DateOf(a, f))
  }

  /** The date picker's range; either end may be unset. */
  datatype DateRange = DateRange(from: Option<Date>, to: Option<Date>)

  // ---------------------------------------------------------------------
  // Case-insensitive search
  // ---------------------------------------------------------------------

  function LowerChar(c: char): char
  {
    if 'A' <= c <= 'Z' then (c as int + 32) as char else c
  }

  /** `toLowerCase()`, on the Latin letters A-Z. */
  function Lower(s: string): (r: string)
    ensures |r| == |s|
    ensures forall i :: 0 <= i < |s| ==> r[i] == LowerChar(s[i])
  {
    if s == [] then [] else [LowerChar(s[0])] + Lower(s[1..])
  }

  /** `needle` occurs in `hay` starting at index `i`. */
  predicate OccursAt(hay: string, needle: string, i: int)
  {
    0 <= i && i + |needle| <= |hay| && hay[i..i + |needle|] == needle
  }

  /** `hay.includes(needle)`. */
  predicate Contains(hay: string, needle: string)
  {
    exists i :: 0 <= i <= |hay| && OccursAt(hay, needle, i)
  }

  predicate MatchesSearch(a: StockAction, term: string)
  {
    Contains(Lower(a.ticker), Lower(term)) || Contains(Lower(a.companyName), Lower(term))
  }

  predicate MatchesType(a: StockAction, selected: string)
  {
    Name(a.actionType) == selected
  }

  /** On or after the start of the `from` day. */
  predicate OnOrAfter(a: StockAction, f: DateField, from: Date)
  {
    DayOf(a, f) >= DayNumber(from)
  }

  /** On or before 23:59:59.999 of the `to` day, i.e. on or before that day. */
  predicate OnOrBefore(a: StockAction, f: DateField, to: Date)
  {
    DayOf(a, f) <= DayNumber(to)
  }

  predicate SearchOk(a: StockAction, term: string)
  {
    term == "" || MatchesSearch(a, term)
  }

  predicate TypeOk(a: StockAction, selected: string)
  {
    selected == "" || MatchesType(a, selected)
  }

  predicate FromOk(a: StockAction, range: Option<DateRange>, f: DateField)
  {
    range.None? || range.value.from.None? || OnOrAfter(a, f, range.value.from.value)
  }

  predicate ToOk(a: StockAction, range: Option<DateRange>, f: DateField)
  {
    range.None? || range.value.to.None? || OnOrBefore(a, f, range.value.to.value)
  }

  /** What it means for a record to pass all four filters of a query. */
  predicate Matches(a: StockAction, term: string, selected: string, range: Option<DateRange>, f: DateField)
  {
    SearchOk(a, term) && TypeOk(a, selected) && FromOk(a, range, f) && ToOk(a, range, f)
  }

  /** The records that pass the query, in their original order. */
  function Selected(actions: seq<StockAction>, term: string, selected: string, range: Option<DateRange>, f: DateField): (r: seq<StockAction>)
    ensures |r| <= |actions|
    ensures forall i :: 0 <= i < |r| ==> Matches(r[i], term, selected, range, f)
  {
    Filter(actions, a => Matches(a, term, selected, range, f))
  }

  /** An empty search term occurs in every text. */
  lemma EmptyTermMatchesEverything(a: StockAction)
    ensures MatchesSearch(a, "")
  {
    assert OccursAt(Lower(a.ticker), Lower(""), 0);
  }

  lemma {:induction false} LowerIdempotent(s: string)
    ensures Lower(Lower(s)) == Lower(s)
  {
    if s != [] {
      LowerIdempotent(s[1..]);
    }
  }

  /** The search ignores case: a term finds the same records as its lower-cased form. */
  lemma SearchIgnoresCase(a: StockAction, term: string)
    ensures MatchesSearch(a, term) <==> MatchesSearch(a, Lower(term))
  {
    LowerIdempotent(term);
  }

  /** A lower-case term finds a capitalised company name: "apple" finds "Apple Inc.". */
  lemma SearchExampleApple(a: StockAction)
    requires a.companyName == "Apple Inc."
    ensures MatchesSearch(a, "apple")
  {
    var low := Lower(a.companyName);
    assert low[0] == 'a' && low[1] == 'p' && low[2] == 'p' && low[3] == 'l' && low[4] == 'e';
    assert low[0..5] == "apple";
    LowerIdempotent("apple");
    assert Lower("apple") == "apple";
    assert OccursAt(low, Lower("apple"), 0);
  }

  /**
   * The filter step of both tables: each active filter narrows the list in
   * turn (an empty search term, an empty type and an unset range end are
   * skipped); the result is the records that pass them all.
   */
  method ApplyFilters(actions: seq<StockAction>, searchTerm: string, selectedActionType: string,
                      dateRange: Option<DateRange>, field: DateField)
    returns (current: seq<StockAction>)
    ensures current == Selected(actions, searchTerm, selectedActionType, dateRange, field)
  {
    var bySearch := (a: StockAction) => MatchesSearch(a, searchTerm);
    var byType := (a: StockAction) => MatchesType(a, selectedActionType);
    ghost var p0 := (a: StockAction) => true;
    ghost var p1 := (a: StockAction) => SearchOk(a, searchTerm);
    ghost var p2 := (a: StockAction) => SearchOk(a, searchTerm) && TypeOk(a, selectedActionType);
    ghost var p3 := (a: StockAction) => SearchOk(a, searchTerm) && TypeOk(a, selectedActionType)
                                        && FromOk(a, dateRange, field);
    ghost var p4 := (a: StockAction) => Matches(a, searchTerm, selectedActionType, dateRange, field);

    current := actions;
    FilterAll(actions, p0);
    if searchTerm != "" {
      current := Filter(current, bySearch);
    }
    GuardedFilter(actions, p0, searchTerm != "", bySearch, p1);
    if selectedActionType != "" {
      current := Filter(current, byType);
    }
    GuardedFilter(actions, p1, selectedActionType != "", byType, p2);
    if dateRange.Some? && dateRange.value.from.Some? {
      var from := dateRange.value.from.value;
      var byFrom := (a: StockAction) => OnOrAfter(a, field, from);
      current := Filter(current, byFrom);
      GuardedFilter(actions, p2, true, byFrom, p3);
    } else {
      GuardedFilter(actions, p2, false, p0, p3);
    }
    if dateRange.Some? && dateRange.value.to.Some? {
      var to := dateRange.value.to.value;
      var byTo := (a: StockAction) => OnOrBefore(a, field, to);
      current := Filter(current, byTo);
      GuardedFilter(actions, p3, true, byTo, p4);
    } else {
      GuardedFilter(actions, p3, false, p0, p4);
    }
  }

  /** Whether or not a guarded filter runs, the list stays the filter of the conjunction so far. */
  lemma GuardedFilter(s: seq<StockAction>, base: StockAction -> bool, guard: bool,
                      q: StockAction -> bool, next: StockAction -> bool)
    requires forall x :: x in s ==> next(x) == (base(x) && (!guard || q(x)))
    ensures (if guard then Filter(Filter(s, base), q) else Filter(s, base)) == Filter(s, next)
  {
    if guard {
      FilterFilter(s, base, q, next);
    } else {
      FilterExt(s, base, next);
    }
  }

  /** No record is invented or duplicated, the order is kept, and a record survives exactly when it passes every filter. */
  lemma SelectedIsExactly(actions: seq<StockAction>, term: string, selected: string, range: Option<DateRange>, f: DateField)
    ensures var r := Selected(actions, term, selected, range, f);
      && IsSubseq(r, actions)
      && multiset(r) <= multiset(actions)
      && (forall a :: a in r <==> a in actions && Matches(a, term, selected, range, f))
  {
    var p := (a: StockAction) => Matches(a, term, selected, range, f);
    FilterIsSubseq(actions, p);
    FilterSubMultiset(actions, p);
    forall a ensures a in Filter(actions, p) <==> a in actions && Matches(a, term, selected, range, f) {
      FilterMembers(actions, p, a);
    }
  }

  /** Both ends of a date range are inclusive: a record dated exactly `from` or exactly `to` survives the date filters. */
  lemma RangeEndsInclusive(a: StockAction, f: DateField, from: Date, to: Date)
    requires DateOf(a, f) == from || DateOf(a, f) == to
    requires DayNumber(from) <= DayNumber(to)
    ensures FromOk(a, Some(DateRange(Some(from), Some(to))), f)
    ensures ToOk(a, Some(DateRange(Some(from), Some(to))), f)
  {
  }

  // ---------------------------------------------------------------------
  // Sorting by a date column
  // ---------------------------------------------------------------------

  datatype Direction = Ascending | Descending

  datatype SortConfig = SortConfig(key: DateField, direction: Direction)

  /** The initial configuration and the one "clear filters" restores. */
  const DefaultSort: SortConfig := SortConfig(AnnouncementDate, Descending)

  function KeyOf(a: StockAction, cfg: SortConfig): int
  {
    DayOf(a, cfg.key)
  }

  /** The comparator handed to `sort`: negative when `a` belongs first, 0 for equal dates. */
  function Compare(a: StockAction, b: StockAction, cfg: SortConfig): (r: int)
    ensures r == 0 <==> KeyOf(a, cfg) == KeyOf(b, cfg)
    ensures r < 0 <==> (if cfg.direction == Ascending then KeyOf(a, cfg) < KeyOf(b, cfg)
                                                     else KeyOf(a, cfg) > KeyOf(b, cfg))
  {
    var dateA, dateB := KeyOf(a, cfg), KeyOf(b, cfg);
    if dateA < dateB then (if cfg.direction == Ascending then -1 else 1)
    else if dateA > dateB then (if cfg.direction == Ascending then 1 else -1)
    else 0
  }

  /** `a` may stand before `b`: earlier-or-equal when ascending, later-or-equal when descending. */
  predicate Precedes(a: StockAction, b: StockAction, cfg: SortConfig)
  {
    if cfg.direction == Ascending then KeyOf(a, cfg) <= KeyOf(b, cfg) else KeyOf(a, cfg) >= KeyOf(b, cfg)
  }

  /** Non-decreasing dates when ascending, non-increasing when descending. */
  predicate Ordered(s: seq<StockAction>, cfg: SortConfig)
  {
    forall i, j :: 0 <= i < j < |s| ==> Precedes(s[i], s[j], cfg)
  }

  /** Insertion of `x` after every element it does not belong before. */
  function Insert(t: seq<StockAction>, x: StockAction, cfg: SortConfig): (r: seq<StockAction>)
    ensures |r| == |t| + 1
  {
    if t == [] then [x]
    else if Compare(t[|t| - 1], x, cfg) > 0 then
      Insert(t[..|t| - 1], x, cfg) + [t[|t| - 1]]
    else t + [x]
  }

  /** The stable sort of `s` under `cfg`, as insertion sort builds it. */
  function SortBy(s: seq<StockAction>, cfg: SortConfig): (r: seq<StockAction>)
    ensures |r| == |s|
  {
    if s == [] then []
    else Insert(SortBy(s[..|s| - 1], cfg), s[|s| - 1], cfg)
  }

  /** Inserting adds `x` and loses nothing. */
  lemma {:induction false} InsertPermutes(t: seq<StockAction>, x: StockAction, cfg: SortConfig)
    ensures multiset(Insert(t, x, cfg)) == multiset(t) + multiset{x}
  {
    if t != [] && Compare(t[|t| - 1], x, cfg) > 0 {
      InsertPermutes(t[..|t| - 1], x, cfg);
      assert t == t[..|t| - 1] + [t[|t| - 1]];
    }
  }

  /** The sorted list is a permutation of the input. */
  lemma {:induction false} SortByPermutes(s: seq<StockAction>, cfg: SortConfig)
    ensures multiset(SortBy(s, cfg)) == multiset(s)
  {
    if s != [] {
      SortByPermutes(s[..|s| - 1], cfg);
      InsertPermutes(SortBy(s[..|s| - 1], cfg), s[|s| - 1], cfg);
      assert s == s[..|s| - 1] + [s[|s| - 1]];
    }
  }

  /** Selects the records whose sort key is `d`. */
  function KeyIs(cfg: SortConfig, d: int): StockAction -> bool
  {
    a => KeyOf(a, cfg) == d
  }

  /** The records of `s` whose sort key is `d`, in order. */
  function WithKey(s: seq<StockAction>, cfg: SortConfig, d: int): seq<StockAction>
  {
    Filter(s, KeyIs(cfg, d))
  }

  lemma WithKeyCons(s: seq<StockAction>, cfg: SortConfig, d: int)
    requires s != []
    ensures WithKey(s, cfg, d) == (if KeyOf(s[0], cfg) == d then [s[0]] else []) + WithKey(s[1..], cfg, d)
  {
  }

  lemma WithKeySnoc(s: seq<StockAction>, y: StockAction, cfg: SortConfig, d: int)
    ensures WithKey(s + [y], cfg, d) == WithKey(s, cfg, d) + (if KeyOf(y, cfg) == d then [y] else [])
  {
    FilterAppend(s, [y], KeyIs(cfg, d));
    WithKeyCons([y], cfg, d);
    assert [y][1..] == [];
  }

  lemma OrderedSnoc(s: seq<StockAction>, y: StockAction, cfg: SortConfig)
    requires Ordered(s, cfg)
    requires forall i :: 0 <= i < |s| ==> Precedes(s[i], y, cfg)
    ensures Ordered(s + [y], cfg)
  {
  }

  lemma {:induction false} InsertOrdered(t: seq<StockAction>, x: StockAction, cfg: SortConfig)
    requires Ordered(t, cfg)
    ensures Ordered(Insert(t, x, cfg), cfg)
  {
    if t == [] {
    } else {
      var init, last := t[..|t| - 1], t[|t| - 1];
      if Compare(last, x, cfg) > 0 {
        InsertOrdered(init, x, cfg);
        var u := Insert(init, x, cfg);
        InsertPermutes(init, x, cfg);
        forall i | 0 <= i < |u| ensures Precedes(u[i], last, cfg) {
          assert u[i] in multiset(u);
          if u[i] != x {
            assert u[i] in multiset(init);
            var k :| 0 <= k < |init| && init[k] == u[i];
            assert t[k] == init[k] && t[|t| - 1] == last;
          }
        }
        OrderedSnoc(u, last, cfg);
      } else {
        forall i | 0 <= i < |t| ensures Precedes(t[i], x, cfg) {
          if i < |t| - 1 {
            assert Precedes(t[i], last, cfg);
          }
        }
        OrderedSnoc(t, x, cfg);
      }
    }
  }

  /** The sorted list has the chosen key in order. */
  lemma {:induction false} SortByOrdered(s: seq<StockAction>, cfg: SortConfig)
    ensures Ordered(SortBy(s, cfg), cfg)
  {
    if s != [] {
      SortByOrdered(s[..|s| - 1], cfg);
      InsertOrdered(SortBy(s[..|s| - 1], cfg), s[|s| - 1], cfg);
    }
  }

  /** Inserting `x` puts it after every record with the same date. */
  lemma {:induction false} InsertWithKey(t: seq<StockAction>, x: StockAction, cfg: SortConfig, d: int)
    ensures WithKey(Insert(t, x, cfg), cfg, d) == WithKey(t + [x], cfg, d)
  {
    if t == [] {
      assert Insert(t, x, cfg) == t + [x];
    } else {
      var init, last := t[..|t| - 1], t[|t| - 1];
      if Compare(last, x, cfg) > 0 {
        var u := Insert(init, x, cfg);
        assert Insert(t, x, cfg) == u + [last];
        InsertWithKey(init, x, cfg, d);
        WithKeySnoc(u, last, cfg, d);
        WithKeySnoc(init, x, cfg, d);
        assert t == init + [last];
        WithKeySnoc(init, last, cfg, d);
        WithKeySnoc(t, x, cfg, d);
        assert KeyOf(last, cfg) != KeyOf(x, cfg);
      } else {
        assert Insert(t, x, cfg) == t + [x];
      }
    }
  }

  /** Stability: for every date, the records with that date keep their relative order. */
  lemma {:induction false} SortByStable(s: seq<StockAction>, cfg: SortConfig, d: int)
    ensures WithKey(SortBy(s, cfg), cfg, d) == WithKey(s, cfg, d)
  {
    if s != [] {
      var init, x := s[..|s| - 1], s[|s| - 1];
      SortByStable(init, cfg, d);
      InsertWithKey(SortBy(init, cfg), x, cfg, d);
      WithKeySnoc(SortBy(init, cfg), x, cfg, d);
      assert s == init + [x];
      WithKeySnoc(init, x, cfg, d);
    }
  }

  lemma InWithKey(s: seq<StockAction>, x: StockAction, cfg: SortConfig)
    ensures x in s <==> x in WithKey(s, cfg, KeyOf(x, cfg))
  {
    FilterMembers(s, KeyIs(cfg, KeyOf(x, cfg)), x);
  }

  lemma HeadPrecedes(r: seq<StockAction>, x: StockAction, cfg: SortConfig)
    requires Ordered(r, cfg) && x in r
    ensures Precedes(r[0], x, cfg)
  {
    var j :| 0 <= j < |r| && r[j] == x;
    if j > 0 {
      assert Precedes(r[0], r[j], cfg);
    }
  }

  lemma SameEmptiness(r1: seq<StockAction>, r2: seq<StockAction>, cfg: SortConfig)
    requires forall d :: WithKey(r1, cfg, d) == WithKey(r2, cfg, d)
    ensures r1 == [] <==> r2 == []
  {
    if r1 != [] {
      WithKeyCons(r1, cfg, KeyOf(r1[0], cfg));
      assert WithKey(r2, cfg, KeyOf(r1[0], cfg)) != [];
    }
    if r2 != [] {
      WithKeyCons(r2, cfg, KeyOf(r2[0], cfg));
      assert WithKey(r1, cfg, KeyOf(r2[0], cfg)) != [];
    }
  }

  lemma HeadsAgree(r1: seq<StockAction>, r2: seq<StockAction>, cfg: SortConfig)
    requires r1 != [] && r2 != []
    requires Ordered(r1, cfg) && Ordered(r2, cfg)
    requires forall d :: WithKey(r1, cfg, d) == WithKey(r2, cfg, d)
    ensures r1[0] == r2[0]
  {
    var d1, d2 := KeyOf(r1[0], cfg), KeyOf(r2[0], cfg);
    InWithKey(r1, r1[0], cfg);
    InWithKey(r2, r1[0], cfg);
    assert WithKey(r1, cfg, d1) == WithKey(r2, cfg, d1);
    HeadPrecedes(r2, r1[0], cfg);
    InWithKey(r2, r2[0], cfg);
    InWithKey(r1, r2[0], cfg);
    assert WithKey(r1, cfg, d2) == WithKey(r2, cfg, d2);
    HeadPrecedes(r1, r2[0], cfg);
    assert d1 == d2;
    WithKeyCons(r1, cfg, d1);
    WithKeyCons(r2, cfg, d1);
    assert WithKey(r1, cfg, d1)[0] == r1[0];
    assert WithKey(r2, cfg, d1)[0] == r2[0];
  }

  /**
   * Two orderings of the same records that are both ordered and keep every
   * date's records in the same relative order are the same sequence.
   */
  lemma {:induction false} StableOrderUnique(r1: seq<StockAction>, r2: seq<StockAction>, cfg: SortConfig)
    requires Ordered(r1, cfg) && Ordered(r2, cfg)
    requires forall d :: WithKey(r1, cfg, d) == WithKey(r2, cfg, d)
    ensures r1 == r2
    decreases |r1|
  {
    SameEmptiness(r1, r2, cfg);
    if r1 != [] {
      HeadsAgree(r1, r2, cfg);
      forall d ensures WithKey(r1[1..], cfg, d) == WithKey(r2[1..], cfg, d) {
        WithKeyCons(r1, cfg, d);
        WithKeyCons(r2, cfg, d);
        var h := if KeyOf(r1[0], cfg) == d then 1 else 0;
        assert WithKey(r1[1..], cfg, d) == WithKey(r1, cfg, d)[h..];
        assert WithKey(r2[1..], cfg, d) == WithKey(r2, cfg, d)[h..];
      }
      StableOrderUnique(r1[1..], r2[1..], cfg);
      assert r1 == [r1[0]] + r1[1..] && r2 == [r2[0]] + r2[1..];
    }
  }

  /**
   * Any stable sort of `s` by the comparator equals `SortBy(s, cfg)`: the
   * result does not depend on which stable algorithm `Array.prototype.sort`
   * uses.
   */
  lemma StableSortIsSortBy(s: seq<StockAction>, r: seq<StockAction>, cfg: SortConfig)
    requires Ordered(r, cfg)
    requires forall d :: WithKey(r, cfg, d) == WithKey(s, cfg, d)
    ensures r == SortBy(s, cfg)
  {
    SortByOrdered(s, cfg);
    forall d ensures WithKey(r, cfg, d) == WithKey(SortBy(s, cfg), cfg, d) {
      SortByStable(s, cfg, d);
    }
    StableOrderUnique(r, SortBy(s, cfg), cfg);
  }

  /** Where the inner loop of `SortInPlace` stops is where `Insert` puts `x`. */
  lemma {:induction false} InsertAt(t: seq<StockAction>, x: StockAction, cfg: SortConfig, j: nat)
    requires j <= |t|
    requires forall k :: j <= k < |t| ==> Compare(t[k], x, cfg) > 0
    requires j == 0 || Compare(t[j - 1], x, cfg) <= 0
    ensures Insert(t, x, cfg) == t[..j] + [x] + t[j..]
    decreases |t|
  {
    if j == |t| {
      assert Insert(t, x, cfg) == t + [x];
      assert t[..j] == t && t[j..] == [];
    } else {
      var init, last := t[..|t| - 1], t[|t| - 1];
      assert Compare(last, x, cfg) > 0;
      assert Insert(t, x, cfg) == Insert(init, x, cfg) + [last];
      assert j == 0 || init[j - 1] == t[j - 1];
      InsertAt(init, x, cfg, j);
      assert t[..j] == init[..j];
      assert t[j..] == init[j..] + [last];
    }
  }

  lemma SortBySnoc(s: seq<StockAction>, i: nat)
    requires i < |s|
    ensures forall cfg :: SortBy(s[..i + 1], cfg) == Insert(SortBy(s[..i], cfg), s[i], cfg)
  {
    assert s[..i + 1][..i] == s[..i];
  }

  /** The array after the shifts and the final write is `Insert`'s result. */
  lemma ShiftedIsInsert(sorted: seq<StockAction>, x: StockAction, cfg: SortConfig, j: nat, placed: seq<StockAction>)
    requires j <= |sorted| && |placed| == |sorted| + 1
    requires forall k :: 0 <= k < j ==> placed[k] == sorted[k]
    requires placed[j] == x
    requires forall k :: j < k < |placed| ==> placed[k] == sorted[k - 1]
    requires forall k :: j <= k < |sorted| ==> Compare(sorted[k], x, cfg) > 0
    requires j == 0 || Compare(sorted[j - 1], x, cfg) <= 0
    ensures placed == Insert(sorted, x, cfg)
  {
    InsertAt(sorted, x, cfg, j);
    assert placed == sorted[..j] + [x] + sorted[j..];
  }

  /**
   * One step of insertion sort: shifts the records of `a[..i]` that belong
   * after `a[i]` one place right and drops `a[i]` into the gap.
   */
  method InsertInPlace(a: array<StockAction>, i: nat, cfg: SortConfig)
    requires i < a.Length
    modifies a
    ensures a[..i + 1] == Insert(old(a[..i]), old(a[i]), cfg)
    ensures forall k :: i < k < a.Length ==> a[k] == old(a[k])
  {
    ghost var sorted := a[..i];
    var x := a[i];
    var j := i;
    while j > 0 && Compare(a[j - 1], x, cfg) > 0
      invariant 0 <= j <= i
      invariant forall k :: 0 <= k < j ==> a[k] == sorted[k]
      invariant forall k :: j < k <= i ==> a[k] == sorted[k - 1]
      invariant forall k :: i < k < a.Length ==> a[k] == old(a[k])
      invariant forall k :: j <= k < i ==> Compare(sorted[k], x, cfg) > 0
    {
      a[j] := a[j - 1];
      j := j - 1;
    }
    a[j] := x;
    ShiftedIsInsert(sorted, x, cfg, j, a[..i + 1]);
  }

  /**
   * `currentActions.sort(...)`: a stable in-place sort of the array, by
   * insertion.
   */
  method SortInPlace(a: array<StockAction>, cfg: SortConfig)
    modifies a
    ensures a[..] == SortBy(old(a[..]), cfg)
  {
    ghost var input := a[..];
    var i := 0;
    while i < a.Length
      invariant 0 <= i <= a.Length
      invariant a[..i] == SortBy(input[..i], cfg)
      invariant forall k :: i <= k < a.Length ==> a[k] == input[k]
    {
      InsertInPlace(a, i, cfg);
      SortBySnoc(input, i);
      i := i + 1;
    }
    assert input[..a.Length] == input;
    assert a[..a.Length] == a[..];
  }

  // ---------------------------------------------------------------------
  // Export
  // ---------------------------------------------------------------------

  /** The property names every exported record has, in declaration order. */
  const ExportedKeys: seq<string> :=
    ["announcementDate", "ticker", "companyName", "actionType", "actionDetails", "effectiveDate"]

  /** The optional properties a record carries, in declaration order. */
  function OptionalKeys(a: StockAction): seq<string>
  {
    (if a.before.Some? then ["before"] else []) + (if a.after.Some? then ["after"] else [])
  }

  /** The displayed values of the six fixed properties, in the same order. */
  function ExportedValues(a: StockAction): seq<string>
  {
    [IsoText(a.announcementDate), a.ticker, a.companyName, Name(a.actionType),
     a.actionDetails, IsoText(a.effectiveDate)]
  }

  /** The text an optional column shows for a record: its value, or empty when the record lacks it. */
  function OptionalValue(a: StockAction, k: string): string
  {
    if k == "before" && a.before.Some? then a.before.value
    else if k == "after" && a.after.Some? then a.after.value
    else ""
  }

  /** The six properties every record has, in declaration order. */
  function FixedProperties(a: StockAction): (o: Csv.JsObject)
    ensures Csv.Keys(o) == ExportedKeys
    ensures forall j :: 0 <= j < 6 ==> o[j].value == Csv.Str(ExportedValues(a)[j])
  {
    [Csv.Property("announcementDate", Csv.Str(IsoText(a.announcementDate))),
     Csv.Property("ticker", Csv.Str(a.ticker)),
     Csv.Property("companyName", Csv.Str(a.companyName)),
     Csv.Property("actionType", Csv.Str(Name(a.actionType))),
     Csv.Property("actionDetails", Csv.Str(a.actionDetails)),
     Csv.Property("effectiveDate", Csv.Str(IsoText(a.effectiveDate)))]
  }

  /** The optional properties a record carries, with their values. */
  function OptionalProperties(a: StockAction): (o: Csv.JsObject)
    ensures Csv.Keys(o) == OptionalKeys(a)
    ensures Csv.Shown(Csv.Get(o, "before")) == OptionalValue(a, "before")
    ensures Csv.Shown(Csv.Get(o, "after")) == OptionalValue(a, "after")
  {
    (if a.before.Some? then [Csv.Property("before", Csv.Str(a.before.value))] else [])
    + (if a.after.Some? then [Csv.Property("after", Csv.Str(a.after.value))] else [])
  }

  /** `({ id, ...rest }) => rest`: the record as a plain object without `id`. */
  function WithoutId(a: StockAction): (o: Csv.JsObject)
    ensures Csv.Keys(o) == ExportedKeys + OptionalKeys(a)
    ensures forall j :: 0 <= j < 6 ==> o[j].value == Csv.Str(ExportedValues(a)[j])
    ensures a.before.Some? ==> o[6] == Csv.Property("before", Csv.Str(a.before.value))
    ensures a.after.Some? ==> o[|o| - 1] == Csv.Property("after", Csv.Str(a.after.value))
  {
    var fixed, optional := FixedProperties(a), OptionalProperties(a);
    Csv.KeysAppend(fixed, optional);
    fixed + optional
  }

  /** `filteredActions.map(...)`: the objects handed to the CSV writer. */
  function ExportRows(filtered: seq<StockAction>): (rows: seq<Csv.JsObject>)
    ensures |rows| == |filtered|
    ensures forall i :: 0 <= i < |filtered| ==> rows[i] == WithoutId(filtered[i])
  {
    seq(|filtered|, i requires 0 <= i < |filtered| => WithoutId(filtered[i]))
  }

  /** What the export button leads to: the no-data warning, or a CSV file with this text. */
  datatype ExportOutcome = NoDataWarning | Exported(csv: string)

  /** Every property name an exported object can have is distinct from the others, from `id`, and writable unquoted. */
  lemma KeyNames()
    ensures forall i, j :: 0 <= i < j < |ExportedKeys + ["before", "after"]| ==>
      (ExportedKeys + ["before", "after"])[i] != (ExportedKeys + ["before", "after"])[j]
    ensures forall k :: k in ExportedKeys + ["before", "after"] ==> Csv.Plain(k) && k != "id"
  {
  }

  lemma WithoutIdKeysPlain(a: StockAction)
    ensures Csv.PlainKeys(WithoutId(a))
    ensures "id" !in Csv.Keys(WithoutId(a))
  {
    var o := WithoutId(a);
    var keys := Csv.Keys(o);
    KeyNames();
    forall i | 0 <= i < |o| ensures Csv.Plain(o[i].key) {
      assert o[i].key == keys[i];
      assert keys[i] in ExportedKeys + ["before", "after"];
    }
  }

  /**
   * `handleExportCSV`: nothing to export gives the warning and no file;
   * otherwise the file decodes to the header and the on-screen rows.
   */
  function ExportFiltered(filtered: seq<StockAction>): (r: ExportOutcome)
    ensures r.NoDataWarning? <==> |filtered| == 0
    ensures r.Exported? ==> Csv.Decode(r.csv) == Some(Csv.Table(ExportRows(filtered)))
  {
    if |filtered| == 0 then NoDataWarning
    else
      var rows := ExportRows(filtered);
      WithoutIdKeysPlain(filtered[0]);
      Csv.CsvRoundTrip(rows);
      Exported(Csv.CsvString(rows))
  }

  lemma FixedColumn(a: StockAction, j: nat)
    requires j < 6
    ensures Csv.Get(WithoutId(a), ExportedKeys[j]) == Csv.Str(ExportedValues(a)[j])
  {
    var row := WithoutId(a);
    KeyNames();
    assert ExportedKeys[j] == Csv.Keys(row)[j] == row[j].key;
    forall m | 0 <= m < j ensures row[m].key != row[j].key {
      assert row[m].key == Csv.Keys(row)[m] == ExportedKeys[m];
    }
  }

  /** Under a header that starts with the six fixed keys, a record's row starts with its six fixed values. */
  lemma FixedColumns(header: seq<string>, a: StockAction)
    requires |header| >= 6 && header[..6] == ExportedKeys
    ensures Csv.ShownRow(header, WithoutId(a))[..6] == ExportedValues(a)
  {
    var shown := Csv.ShownRow(header, WithoutId(a));
    forall j | 0 <= j < 6 ensures shown[j] == ExportedValues(a)[j] {
      FixedColumn(a, j);
      assert header[j] == ExportedKeys[j];
    }
  }

  /** Neither optional name is one of the fixed names. */
  lemma OptionalNotFixed()
    ensures "before" !in ExportedKeys && "after" !in ExportedKeys
  {
  }

  /** An optional column of a record's row shows the record's value, or nothing when the record lacks the property. */
  lemma OptionalColumn(a: StockAction, k: string)
    requires k == "before" || k == "after"
    ensures Csv.Shown(Csv.Get(WithoutId(a), k)) == OptionalValue(a, k)
  {
    OptionalNotFixed();
    Csv.GetAfter(FixedProperties(a), OptionalProperties(a), k);
  }

  /** The values an exported record shows under the optional columns `keys`. */
  function OptionalValues(a: StockAction, keys: seq<string>): (vs: seq<string>)
    ensures |vs| == |keys|
    ensures forall j :: 0 <= j < |keys| ==> vs[j] == OptionalValue(a, keys[j])
  {
    seq(|keys|, j requires 0 <= j < |keys| => OptionalValue(a, keys[j]))
  }

  /** Under the header of fixed keys and optional keys, a record's row is its fixed values and then its optional values. */
  lemma ExportedRow(a: StockAction, opt: seq<string>)
    requires forall j :: 0 <= j < |opt| ==> opt[j] == "before" || opt[j] == "after"
    ensures Csv.ShownRow(ExportedKeys + opt, WithoutId(a)) == ExportedValues(a) + OptionalValues(a, opt)
  {
    var header := ExportedKeys + opt;
    var row := Csv.ShownRow(header, WithoutId(a));
    var expected := ExportedValues(a) + OptionalValues(a, opt);
    FixedColumns(header, a);
    forall j | 0 <= j < |header| ensures row[j] == expected[j] {
      if j >= 6 {
        assert header[j] == opt[j - 6];
        OptionalColumn(a, opt[j - 6]);
      } else {
        assert row[..6][j] == row[j];
      }
    }
  }

  /** The exported header is the first record's keys, which never include `id`. */
  lemma ExportedHeader(filtered: seq<StockAction>)
    requires |filtered| > 0
    ensures Csv.Table(ExportRows(filtered))[0] == ExportedKeys + OptionalKeys(filtered[0])
    ensures "id" !in ExportedKeys + OptionalKeys(filtered[0])
  {
    assert ExportRows(filtered)[0] == WithoutId(filtered[0]);
    WithoutIdKeysPlain(filtered[0]);
  }

  /**
   * The exported file's header is the first record's keys without `id` (so
   * `before` and `after` are columns only when the first record has them),
   * and row `i + 1` is record `i`'s six fixed fields followed by its values
   * under those optional columns, empty where record `i` lacks the property.
   */
  lemma ExportedTable(filtered: seq<StockAction>, i: nat)
    requires i < |filtered|
    ensures var t := Csv.Table(ExportRows(filtered));
      && t[0] == ExportedKeys + OptionalKeys(filtered[0])
      && "id" !in t[0]
      && t[i + 1] == ExportedValues(filtered[i]) + OptionalValues(filtered[i], OptionalKeys(filtered[0]))
  {
    var rows := ExportRows(filtered);
    ExportedHeader(filtered);
    assert rows[i] == WithoutId(filtered[i]);
    Csv.TableRow(rows, i);
    ExportedRow(filtered[i], OptionalKeys(filtered[0]));
  }
}
