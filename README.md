# Corporate-action dashboard: query, sort, pagination, CSV export and locale switch

This project models the logic core of a Next.js dashboard of corporate actions on listed stocks (dividends, bonus issues, splits, ticker changes and so on) and proves properties of it in Dafny.

- **Types** (`types.dfy`). The seven action-type literals and the three holding types, with their constant lists. Also the `StockAction` record, whose `YYYY-MM-DD` dates are kept as calendar dates. A date and its text are proved to determine each other in both directions, so keeping the date loses nothing.
- **Query pipeline** (`query.dfy`), shared by both tables:
  - a case-insensitive substring search over ticker and company name;
  - an exact action-type filter;
  - an inclusive date range on one date column;
  - a stable sort by a date column in either direction;
  - the export of the shown rows, with `id` dropped.
  - `ApplyFilters` runs the filters one after another, as the effect bodies do. It is proved equal to the specification `Selected`.
  - `SortInPlace` is an in-place insertion sort on an array. It is proved equal to the specification `SortBy`.
  - `SortBy` is proved to be a permutation, ordered and stable. Any stable ordering of the input is proved to equal it, so the result does not depend on the engine's sort algorithm.
- **Holding processor** (`holding.dfy`). The base list holds the holding-type records. The class `HoldingProcessor` keeps the filter state, the sort configuration and the shown list. `Shown()` says the shown list is the sorted selection. Every handler preserves it, and re-establishes it whenever the effect runs. A fresh component shows nothing until the mount-time run of `Recompute`.
- **Stock-action tracker** (`tracker.dfy`):
  - the fixture pre-sorted newest first;
  - the three newest ids;
  - the filters applied to `effectiveDate`;
  - a pager of five rows per page, whose pages are proved to partition the filtered list.
- **CSV encoder** (`csv.dfy`). It builds a header row and quoted, quote-doubled data rows joined with CRLF. A decoder states what the text means: decoding the encoder's output gives back the header and every row's values. The decoder reads the grammar of section 2 of RFC 4180, relaxed to allow any character other than comma, double quote, CR and LF in a field, where the RFC allows only printable ASCII.
- **Language switcher** (`locale.dfy`). It splits the path on `/`, overwrites piece 1 with the locale and joins again. Split and join are proved inverse, and the rewrite is proved to change only piece 1.
- **Action-type dialog** (`selection.dfy`). The form's selection as edited by the checkboxes, and the form's validation rule.

The components' React state becomes the fields of a class. Each `useEffect` body becomes a method `Recompute` that the setters call. A setter that stores an equal string does not run the effect, because React leaves the effect's dependencies as they were. Setters that store a fresh object (a date range from the picker, a sort configuration) always run it. The one exception is `setDateRange(undefined)` over an unset range, which React skips. The picker never makes that call, and the model's `SetDateRange` runs the effect regardless.

The dialog imports `ALL_ACTION_TYPES` from the types module, but that module does not define it. The model takes it to be `LOOKUP_ACTION_TYPES`, the only list of all seven types.

## Model

| member | source | states |
|---|---|---|
| Types.NameInjective | src/types/index.ts:5-8 | Distinct action types have distinct string literals, so comparing the literal compares the type. |
| Types.HoldingTypesAreStockTypes | src/types/index.ts:2-8 | `HOLDING_ACTION_TYPES` lists exactly the three `HoldingActionType` members, and their literals are stock action types. |
| Types.LookupListComplete | src/types/index.ts:5-8 | `LOOKUP_ACTION_TYPES` has seven entries, lists every type exactly once, and names the same literal set as `StockActionType`. |
| Types.DayNumberOrder | src/components/holding-processor.tsx:123-136 | For valid dates, comparing day ordinals is comparing calendar dates (strictly and for equality). |
| Types.IsoText | src/types/index.ts:12 | A date's text has ten characters with dashes at positions 4 and 7. |
| Types.ParseIso | src/types/index.ts:12 | Only ten-character text can parse as a date. |
| Types.IsoRoundTrip | src/types/index.ts:12-17 | Parsing the `YYYY-MM-DD` text of a valid date gives the date back. |
| Types.IsoTextOfParse | src/types/index.ts:12-17 | Text that reads as a date is exactly that date's `YYYY-MM-DD` text, so the exported date text is the record's own. |
| Seqs.Filter | src/components/holding-processor.tsx:110-114 | `Array.prototype.filter`: no longer than the input, and every kept element satisfies the predicate. |
| Seqs.FilterMembers | src/components/holding-processor.tsx:110-114 | An element is kept exactly when it is in the input and satisfies the predicate. |
| Seqs.FilterSubMultiset | src/components/holding-processor.tsx:110-114 | Filtering never duplicates an element. |
| Seqs.FilterIsSubseq | src/components/holding-processor.tsx:110-114 | Filtering keeps the input order. |
| Seqs.FilterFilter | src/components/holding-processor.tsx:109-136 | Two filters in a row are one filter by the conjunction. |
| Seqs.FilterAll | src/components/stock-action-tracker.tsx:96-97 | A filter whose predicate holds for every element returns the input. |
| Csv.Keys | src/lib/utils.ts:25 | `Object.keys`: one key per property, in property order. |
| Csv.Get | src/lib/utils.ts:31 | `row[fieldName]`: `undefined` for an absent key, otherwise the value of the first property with that name. |
| Csv.Escape | src/lib/utils.ts:21-22 | Every double quote is doubled: the length grows by the number of quotes, and text without quotes is unchanged. |
| Csv.Replacer | src/lib/utils.ts:16-23 | `null` and `undefined` become the empty string; any other value is its text with quotes doubled. |
| Csv.QuoteField | src/lib/utils.ts:29-31 | A data field starts and ends with a double quote; a missing value is written `""`. |
| Csv.RowFields | src/lib/utils.ts:28-32 | A data row has one quoted field per header key, in header order. |
| Csv.CsvRows | src/lib/utils.ts:26-34 | The header row plus one line per object. |
| Csv.JoinWith | src/lib/utils.ts:27 | `Array.prototype.join`; its meaning on encoder output is fixed by `Csv.RecordRoundTrip` and `Csv.TableRoundTrip`. |
| Csv.HeaderLine | src/lib/utils.ts:27 | The header row; `Csv.HeaderEncoded` shows it is the keys written unquoted. |
| Csv.DataLine | src/lib/utils.ts:28-32 | One data line; `Csv.RowEncoded` shows it is the row's shown values written quoted. |
| Csv.CsvString | src/lib/utils.ts:35 | `csvRows.join('\r\n')`; `Csv.CsvRoundTrip` shows it decodes to the table. |
| Csv.ExportText | src/lib/utils.ts:8-35 | No text for missing or empty data. Otherwise, when the first object's keys are non-empty and plain, the text decodes to the header and every row's values. |
| Csv.ParseEscaped | src/lib/utils.ts:31 | Reading an escaped field consumes input. |
| Csv.ParsePlain | src/lib/utils.ts:27 | A non-escaped field is the longest run of text data, and field plus remainder is the input. |
| Csv.ParseRecord | src/lib/utils.ts:32 | A record has at least one field and stops at the end of input or before a CRLF. |
| Csv.Decode | src/lib/utils.ts:35 | A decoded file has at least one record. |
| Csv.Table | src/lib/utils.ts:25-34 | What the file must decode to: the first object's keys, then one row of header length per object. |
| Csv.EscapedRoundTrip | src/lib/utils.ts:21-22 | An escaped body followed by a closing quote reads back as the original text, leaving the rest of the input. |
| Csv.PlainRoundTrip | src/lib/utils.ts:27 | A plain header key reads back unchanged, stopping at a comma, CR or the end of input. |
| Csv.FieldRoundTrip | src/lib/utils.ts:27-31 | A quoted field, or a plain unquoted one, reads back as its value. |
| Csv.RecordRoundTrip | src/lib/utils.ts:27-32 | A line of fields joined with commas reads back as its values. |
| Csv.TableRoundTrip | src/lib/utils.ts:35 | Lines joined with CRLF, all quoted after the first, decode to the records. |
| Csv.HeaderEncoded | src/lib/utils.ts:27 | The header row is the keys written unquoted. |
| Csv.RowEncoded | src/lib/utils.ts:28-32 | A data line is the row's shown values written quoted. |
| Csv.TableLines | src/lib/utils.ts:26-34 | The encoder's lines are the records of `Table`: the header unquoted, the rows quoted. |
| Csv.CsvRoundTrip | src/lib/utils.ts:25-35 | With a non-empty plain header, decoding `csvString` gives the header and every object's values in header order. |
| Csv.EscapeAppend | src/lib/utils.ts:22 | Escaping distributes over concatenation. |
| Csv.EscapeNoQuotes | src/lib/utils.ts:22 | Text without double quotes is left as it is. |
| Csv.QuotedCommaAndQuotes | src/lib/utils.ts:20-31 | `Acme, "Inc."` is written `"Acme, ""Inc."""` and reads back as `Acme, "Inc."`. |
| ActionQuery.Lower | src/components/holding-processor.tsx:112-113 | Lower-casing keeps the length and maps each character. |
| ActionQuery.MatchesSearch | src/components/holding-processor.tsx:109-115 | The search term, lower-cased, occurs in the lower-cased ticker or company name; `ActionQuery.SearchIgnoresCase` and `ActionQuery.EmptyTermMatchesEverything` state its properties. |
| ActionQuery.EmptyTermMatchesEverything | src/components/holding-processor.tsx:109-115 | The empty search term occurs in every record's text. |
| ActionQuery.LowerIdempotent | src/components/holding-processor.tsx:112-113 | Lower-casing twice is lower-casing once. |
| ActionQuery.SearchIgnoresCase | src/components/holding-processor.tsx:109-115 | A term and its lower-case form find the same records. |
| ActionQuery.SearchExampleApple | src/components/holding-processor.tsx:109-115 | "apple" finds the company "Apple Inc.". |
| ActionQuery.ApplyFilters | src/components/holding-processor.tsx:107-136 | The step-by-step filtering, with inactive filters skipped, equals the selection of records passing all four filters. |
| ActionQuery.Selected | src/components/holding-processor.tsx:107-136 | Never longer than the input, and every selected record passes all four filters. |
| ActionQuery.SelectedIsExactly | src/components/stock-action-tracker.tsx:107-136 | The selection keeps the input order, adds nothing, and holds exactly the records that pass every filter. |
| ActionQuery.RangeEndsInclusive | src/components/holding-processor.tsx:123-136 | Records dated exactly on `from` or exactly on `to` survive the date filters. |
| ActionQuery.Compare | src/components/holding-processor.tsx:139-149 | The comparator is 0 exactly for equal dates, and negative exactly when `a` belongs first in the configured direction. |
| ActionQuery.Insert | src/components/holding-processor.tsx:139-149 | An insertion step adds one element. |
| ActionQuery.SortBy | src/components/holding-processor.tsx:139-149 | The stable sort keeps the length. |
| ActionQuery.InsertPermutes | src/components/holding-processor.tsx:139 | An insertion step adds its element and loses nothing. |
| ActionQuery.SortByPermutes | src/components/holding-processor.tsx:139 | The sort is a permutation of its input. |
| ActionQuery.InsertOrdered | src/components/holding-processor.tsx:139-149 | Inserting into an ordered list gives an ordered list. |
| ActionQuery.SortByOrdered | src/components/holding-processor.tsx:139-149 | The sorted list is in date order for the configured direction. |
| ActionQuery.InsertWithKey | src/components/holding-processor.tsx:139-149 | Insertion puts the new element after every element with its date. |
| ActionQuery.SortByStable | src/components/holding-processor.tsx:139-149 | Records with equal dates keep their relative order. |
| ActionQuery.StableOrderUnique | src/components/holding-processor.tsx:139-149 | Two ordered lists with the same equal-date groups, in the same order, are equal. |
| ActionQuery.StableSortIsSortBy | src/components/holding-processor.tsx:139-149 | Every ordered, stable rearrangement of the input is `SortBy`'s result. |
| ActionQuery.InsertInPlace | src/components/holding-processor.tsx:139 | One in-place insertion step leaves `Insert` of the prefix and the next element in the array, and the tail unchanged. |
| ActionQuery.SortInPlace | src/components/holding-processor.tsx:139-149 | The array ends up as `SortBy` of its old contents. |
| ActionQuery.WithoutId | src/components/holding-processor.tsx:168 | The exported object has the fixed keys in declaration order, then the optional ones the record has; the fixed properties hold the record's values, and `before` and `after` hold the record's own values. |
| ActionQuery.FixedProperties | src/components/holding-processor.tsx:168 | The six fixed properties with the record's values. |
| ActionQuery.OptionalProperties | src/components/holding-processor.tsx:168 | The optional properties the record has; looking up `before` or `after` shows the record's value, or empty when absent. |
| ActionQuery.ExportRows | src/components/holding-processor.tsx:168 | One exported object per shown record, in order. |
| ActionQuery.KeyNames | src/types/index.ts:10-20 | Exported property names are distinct, are not `id`, and need no quoting. |
| ActionQuery.WithoutIdKeysPlain | src/components/holding-processor.tsx:168 | The exported object's keys need no quoting, and `id` is gone. |
| ActionQuery.ExportFiltered | src/components/holding-processor.tsx:159-175 | The warning exactly when nothing is shown; otherwise a file that decodes to the exported table. |
| ActionQuery.FixedColumn | src/lib/utils.ts:31 | Looking up a fixed key in an exported object gives that record's value (the key occurs once, so `Get` finds it). |
| ActionQuery.FixedColumns | src/lib/utils.ts:28-32 | Under a header starting with the fixed keys, a row starts with the record's fixed values. |
| ActionQuery.OptionalColumn | src/lib/utils.ts:31 | Under a `before` or `after` column a record shows its own value, or empty when it lacks the property. |
| ActionQuery.OptionalValues | src/lib/utils.ts:28-32 | One shown value per optional column. |
| ActionQuery.ExportedRow | src/lib/utils.ts:28-32 | Under the fixed keys plus optional keys, a record's row is its fixed values, then its optional values. |
| ActionQuery.ExportedHeader | src/lib/utils.ts:25 | The header line of the exported table is the first record's keys: the fixed keys, then its optional ones, never `id`. |
| ActionQuery.ExportedTable | src/components/stock-action-tracker.tsx:162-178 | The file's header is the first record's keys without `id`. Row `i + 1` is record `i`'s fixed values, then its values under the first record's optional columns, empty where record `i` lacks one. A later record's `before`/`after` is dropped when the first record lacks it. |
| HoldingProcessing.HoldingBaseIsHoldingRecords | src/components/holding-processor.tsx:92 | The base list keeps fixture order and holds exactly the records of holding type. |
| HoldingProcessing.HoldingBase | src/components/holding-processor.tsx:92 | The base list is no longer than the fixture, and every record in it is of a holding type. |
| HoldingProcessing.HoldingViewSpec | src/components/holding-processor.tsx:105-157 | The view holds exactly the matching records, as often as the selection does, in date order, with equal dates in base order. |
| HoldingProcessing.HoldingView | src/components/holding-processor.tsx:105-157 | The effect's result: never longer than the base list, and in date order for the configuration. |
| HoldingProcessing.UnfilteredView | src/components/holding-processor.tsx:177-182 | With the filters cleared, the view is the whole base list sorted. |
| HoldingProcessing.TypeSelection | src/components/holding-processor.tsx:190-196 | "all" (or nothing) means no type filter; any other value filters by itself. |
| HoldingProcessing.NextSortConfig | src/components/holding-processor.tsx:198-204 | Clicking a header always sorts by that header's column. |
| HoldingProcessing.RequestSortToggles | src/components/holding-processor.tsx:198-204 | Descending exactly when the column was ascending, ascending otherwise, and two clicks in a row always differ. |
| HoldingProcessing.SortIndicator | src/components/holding-processor.tsx:206-209 | An arrow only on the active column, "▲" exactly when ascending. |
| HoldingProcessing.HoldingProcessor.constructor | src/components/holding-processor.tsx:92-101 | The initial state: the holding base list, nothing shown yet, no filters, newest announcement first. |
| HoldingProcessing.HoldingProcessor.Recompute | src/components/holding-processor.tsx:105-157 | After the effect, the shown list is the sorted selection. |
| HoldingProcessing.HoldingProcessor.SetSearchTerm | src/components/holding-processor.tsx:94 | A new term refreshes the shown list; an equal one changes nothing. |
| HoldingProcessing.HoldingProcessor.SetDateRange | src/components/holding-processor.tsx:96 | A picked range is stored and the shown list refreshed. |
| HoldingProcessing.HoldingProcessor.HandleActionTypeChange | src/components/holding-processor.tsx:190-196 | "all" clears the type filter. A change refreshes the shown list; an equal value changes nothing. |
| HoldingProcessing.HoldingProcessor.RequestSort | src/components/holding-processor.tsx:198-204 | The sort toggles as `NextSortConfig` says, and the shown list is re-sorted. |
| HoldingProcessing.HoldingProcessor.ClearFilters | src/components/holding-processor.tsx:177-182 | Filters and sort reset; the whole base list is shown newest first. |
| HoldingProcessing.HoldingProcessor.HandleExportCsv | src/components/holding-processor.tsx:159-175 | The warning exactly when nothing is shown; otherwise the file decodes to the shown rows without `id`. |
| StockTracking.DifferenceComparator | src/components/stock-action-tracker.tsx:81-83 | The `b - a` comparator orders exactly as the default descending configuration. |
| StockTracking.SortedMockActions | src/components/stock-action-tracker.tsx:81-83 | The pre-sorted list keeps the fixture's length and is newest announcement first. |
| StockTracking.SortedMockActionsSpec | src/components/stock-action-tracker.tsx:80-83 | The pre-sorted list is a permutation of the fixture, newest announcement first. |
| StockTracking.NewestActionIds | src/components/stock-action-tracker.tsx:86 | Three ids, or all of them when there are fewer records. |
| StockTracking.NewestActionIdsSpec | src/components/stock-action-tracker.tsx:85-86 | The flagged ids are the first records of the sorted list, and no other record was announced later. |
| StockTracking.TotalPages | src/components/stock-action-tracker.tsx:147 | The least number of five-row pages that holds every row. |
| StockTracking.JsSlice | src/components/stock-action-tracker.tsx:151 | `slice` never returns more than the input. |
| StockTracking.PageOf | src/components/stock-action-tracker.tsx:148-152 | A page has at most five rows: from page 1 on, rows `5(p-1)` up to `5p`, clamped to the list. |
| StockTracking.PagesPartition | src/components/stock-action-tracker.tsx:147-152 | Pages 1 to `totalPages`, one after another, are the whole filtered list. |
| StockTracking.TwelveRows | src/components/stock-action-tracker.tsx:147-152 | Twelve rows make three pages, the last holding two. |
| StockTracking.PreviousPage | src/components/stock-action-tracker.tsx:155 | Never below 1; one page back from page 2 on. |
| StockTracking.NextPage | src/components/stock-action-tracker.tsx:159 | Never past `totalPages`; one page forward while there is a next page. |
| StockTracking.NavigationInRange | src/components/stock-action-tracker.tsx:154-160 | From a page in range, Previous and Next stay in range and move by one unless at the end. |
| StockTracking.DisabledMeansNoMove | src/components/stock-action-tracker.tsx:332-348 | A button is disabled exactly when pressing it would not move. |
| StockTracking.StockActionTracker.constructor | src/components/stock-action-tracker.tsx:96-102 | The whole pre-sorted list is shown from page 1, with no filters. |
| StockTracking.StockActionTracker.PaginatedActions | src/components/stock-action-tracker.tsx:148-152 | The current page shows at most five rows. |
| StockTracking.StockActionTracker.Recompute | src/components/stock-action-tracker.tsx:105-145 | After the effect, the shown list is the selection and the page is 1. |
| StockTracking.StockActionTracker.SetSearchTerm | src/components/stock-action-tracker.tsx:98 | A new term refreshes the list from page 1; an equal one changes nothing. |
| StockTracking.StockActionTracker.SetDateRange | src/components/stock-action-tracker.tsx:100 | A picked range refreshes the list from page 1. |
| StockTracking.StockActionTracker.HandleActionTypeChange | src/components/stock-action-tracker.tsx:193-199 | "all" clears the type filter. A change refreshes from page 1; an equal value changes nothing. |
| StockTracking.StockActionTracker.ClearFilters | src/components/stock-action-tracker.tsx:180-185 | Filters cleared. If any was set, the whole list is shown from page 1; otherwise list and page are kept. |
| StockTracking.StockActionTracker.HandlePreviousPage | src/components/stock-action-tracker.tsx:154-156 | One page back, never below 1. |
| StockTracking.StockActionTracker.HandleNextPage | src/components/stock-action-tracker.tsx:158-160 | One page forward, never past the last. |
| StockTracking.StockActionTracker.HandleExportCsv | src/components/stock-action-tracker.tsx:162-178 | The warning exactly when nothing is filtered; otherwise the file decodes to the filtered rows without `id`. |
| LanguageSwitcher.Split | src/components/language-switcher.tsx:27 | At least one piece, none containing `/`. |
| LanguageSwitcher.Join | src/components/language-switcher.tsx:29 | `parts.join('/')`; `LanguageSwitcher.JoinSplit` and `LanguageSwitcher.SplitJoin` show it undoes `Split`. |
| LanguageSwitcher.JoinSplit | src/components/language-switcher.tsx:27-29 | Joining the pieces of a path gives the path back. |
| LanguageSwitcher.SplitJoin | src/components/language-switcher.tsx:27-29 | Splitting a join of slash-free pieces gives the pieces back. |
| LanguageSwitcher.WithLocale | src/components/language-switcher.tsx:28 | Piece 1 becomes the locale and every other piece is kept; a one-piece array grows to two. |
| LanguageSwitcher.LocalePath | src/components/language-switcher.tsx:27-29 | The pushed path; `LanguageSwitcher.LocalePathPieces` states its pieces. |
| LanguageSwitcher.LocalePathPieces | src/components/language-switcher.tsx:25-30 | The pushed path's pieces are the old ones with piece 1 replaced by the locale. |
| LanguageSwitcher.LocalePathIdempotent | src/components/language-switcher.tsx:25-30 | Switching to the same locale twice is switching once. |
| LanguageSwitcher.LocalePathSameLocale | src/components/language-switcher.tsx:25-30 | Switching to the current locale leaves the path unchanged. |
| LanguageSwitcher.SwitchExample | src/components/language-switcher.tsx:25-30 | `/en/a/b` switched to `zh` is `/zh/a/b`. |
| LanguageSwitcher.ChangeLocale | src/components/language-switcher.tsx:25-30 | No navigation without a pathname; otherwise the path with piece 1 replaced. |
| ActionTypeSelection.DefaultSelection | src/components/action-type-management-dialog.tsx:41-47 | The form starts with every action type's name, in list order. |
| ActionTypeSelection.Check | src/components/action-type-management-dialog.tsx:95-96 | Ticking appends the type and keeps the rest. |
| ActionTypeSelection.IsChecked | src/components/action-type-management-dialog.tsx:93 | A box is checked when its type is in the selection. |
| ActionTypeSelection.Uncheck | src/components/action-type-management-dialog.tsx:97-101 | Clearing never lengthens the selection and leaves no copy of the type. |
| ActionTypeSelection.OnCheckedChange | src/components/action-type-management-dialog.tsx:94-101 | Afterwards the box shows checked exactly when it was set to checked. |
| ActionTypeSelection.Validate | src/components/action-type-management-dialog.tsx:35-39 | Rejected, with the form's message, exactly when every entry is empty; otherwise the selection is accepted as is. |
| ActionTypeSelection.CheckShowsChecked | src/components/action-type-management-dialog.tsx:93-96 | After ticking, the box shows checked and no other box changes. |
| ActionTypeSelection.UncheckRemovesAll | src/components/action-type-management-dialog.tsx:97-101 | Clearing drops every copy of the type and nothing else, in order. |
| ActionTypeSelection.CheckThenUncheck | src/components/action-type-management-dialog.tsx:93-101 | Ticking then clearing an unticked box restores the selection. |
| ActionTypeSelection.DefaultSelectionValid | src/components/action-type-management-dialog.tsx:41-47 | Every box starts ticked, and the starting selection passes validation. |

## Left out

- The 300 ms `setTimeout` before the effect's result is stored, and the `isLoading` flag. The model stores the result at once.
- Toast messages, `console.warn`/`console.error`/`console.log`, icons, JSX rendering and `displayDateRange` formatting.
- The file name built from the clock, and the browser download (`Blob`, object URL, link click). The export stops at the CSV text.
- `onSubmit` of the action-type dialog and the dialog's open state. `onSubmit` only logs and closes the dialog.
- Time zones. The model treats a record's `YYYY-MM-DD` date and the picker's dates as calendar days, and a date range as whole days. `new Date("YYYY-MM-DD")` is UTC midnight while the picker's dates are local, so in some time zones the source can differ by a day.
- ActionQuery.Lower: lower-cases the Latin letters A-Z only, not the whole of Unicode.
- The fixture `mockStockActions` is a constructor parameter, not its literal contents.
- The router is not modelled: `ChangeLocale` returns the path it would push.
- Csv.ExportText: the decoding guarantee is stated only when the first object has at least one key and every key is free of commas, quotes, CR and LF. Otherwise the unquoted header row can be ambiguous, and the model promises only that some text is produced.
- Csv.CsvRoundTrip: requires a non-empty header of plain keys, for the same reason. The exported records always meet this (`ActionQuery.WithoutIdKeysPlain`).
- StockTracking.StockActionTracker.HandleNextPage: with no rows, `totalPages` is 0 and the page becomes 0. The pager is hidden in that state, so the contract promises staying in range only from a page already in range.
- HoldingProcessing.HoldingProcessor.constructor: states the state before the first effect run (nothing shown). The mount-time run is a call to `Recompute`.
- React's identity comparison of objects is modelled by the rule above: a setter storing a fresh object always re-runs the effect. `SetDateRange(None)` over an unset range re-runs it in the model, where React would skip it; the date picker never issues that call.
- `row[fieldName]` for a key inherited from `Object.prototype` is not modelled; records are plain data.
- `String(value)` of non-string values: `Csv.Value` holds only `null`, `undefined` and strings, since every property of an exported record is a string.
- Csv.Decode: reads a relaxed form of the RFC 4180 grammar that allows any character except comma, double quote, CR and LF in a field. Under strict RFC 4180, a file with non-ASCII text (such as a non-English company name) is outside the grammar.
