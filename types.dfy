/**
 * The record and enumeration types every dashboard component works over:
 * the closed action-type unions, their constant lists, and the
 * `StockAction` record with its calendar dates.
 */
module Types {

  datatype Option<+T> = None | Some(value: T)

  /** The seven string literals of `StockActionType` (= `LookupActionType`). */
  datatype ActionType =
    | CashDividend
    | BonusIssue
    | StockSplitConsolidation
    | TickerChange
    | ShareholderMeeting
    | BoardTransfer
    | TradingStatusChange

  /** The string literal that represents each action type at run time. */
  function Name(t: ActionType): string
  {
    match t
    case CashDividend => "Cash Dividend"
    case BonusIssue => "Bonus Issue"
    case StockSplitConsolidation => "Stock Split/Consolidation"
    case TickerChange => "Ticker Change"
    case ShareholderMeeting => "Shareholder Meeting"
    case BoardTransfer => "Board Transfer"
    case TradingStatusChange => "Trading Status Change"
  }

  /** Membership in the `HoldingActionType` union. */
  predicate IsHolding(t: ActionType)
  {
    t == BonusIssue || t == StockSplitConsolidation || t == TickerChange
  }

  type HoldingActionType = t: ActionType | IsHolding(t) witness BonusIssue

  const HOLDING_ACTION_TYPES: seq<HoldingActionType> :=
    [BonusIssue, StockSplitConsolidation, TickerChange]

  const LOOKUP_ACTION_TYPES: seq<ActionType> :=
    [CashDividend, BonusIssue, StockSplitConsolidation, TickerChange,
     ShareholderMeeting, BoardTransfer, TradingStatusChange]

  /**
   * Two components import `ALL_ACTION_TYPES` from the types module, which
   * does not define it; this model takes it to be `LOOKUP_ACTION_TYPES`.
   */
  const ALL_ACTION_TYPES: seq<ActionType> := LOOKUP_ACTION_TYPES

  /** The literal sets of the `LookupActionType` and `StockActionType` unions. */
  const LOOKUP_ACTION_TYPE_NAMES: set<string> :=
    {"Cash Dividend", "Bonus Issue", "Stock Split/Consolidation", "Ticker Change",
     "Shareholder Meeting", "Board Transfer", "Trading Status Change"}

  const STOCK_ACTION_TYPE_NAMES: set<string> :=
    {"Cash Dividend", "Bonus Issue", "Stock Split/Consolidation", "Ticker Change",
     "Shareholder Meeting", "Board Transfer", "Trading Status Change"}

  const HOLDING_ACTION_TYPE_NAMES: set<string> :=
    {"Bonus Issue", "Stock Split/Consolidation", "Ticker Change"}

  /** Distinct action types have distinct literals, so comparing names is comparing types. */
  lemma NameInjective(a: ActionType, b: ActionType)
    ensures Name(a) == Name(b) <==> a == b
  {
  }

  /** `HOLDING_ACTION_TYPES` lists exactly the members of `HoldingActionType`, all of which are stock action types. */
  lemma HoldingTypesAreStockTypes()
    ensures forall t :: t in HOLDING_ACTION_TYPES <==> IsHolding(t)
    ensures forall t :: IsHolding(t) <==> Name(t) in HOLDING_ACTION_TYPE_NAMES
    ensures HOLDING_ACTION_TYPE_NAMES <= STOCK_ACTION_TYPE_NAMES
  {
    forall t: ActionType ensures IsHolding(t) <==> Name(t) in HOLDING_ACTION_TYPE_NAMES {
      if !IsHolding(t) {
        NameInjective(t, BonusIssue);
        NameInjective(t, StockSplitConsolidation);
        NameInjective(t, TickerChange);
      }
    }
  }

  /** `LOOKUP_ACTION_TYPES` lists all seven types once each, and the two unions name the same set. */
  lemma LookupListComplete()
    ensures |LOOKUP_ACTION_TYPES| == 7
    ensures forall t :: t in LOOKUP_ACTION_TYPES
    ensures forall i, j :: 0 <= i < j < |LOOKUP_ACTION_TYPES| ==> LOOKUP_ACTION_TYPES[i] != LOOKUP_ACTION_TYPES[j]
    ensures forall t :: Name(t) in LOOKUP_ACTION_TYPE_NAMES
    ensures forall s :: s in LOOKUP_ACTION_TYPE_NAMES ==> exists t :: Name(t) == s
    ensures LOOKUP_ACTION_TYPE_NAMES == STOCK_ACTION_TYPE_NAMES
  {
    forall t ensures t in LOOKUP_ACTION_TYPES {
      match t
      case CashDividend => assert LOOKUP_ACTION_TYPES[0] == t;
      case BonusIssue => assert LOOKUP_ACTION_TYPES[1] == t;
      case StockSplitConsolidation => assert LOOKUP_ACTION_TYPES[2] == t;
      case TickerChange => assert LOOKUP_ACTION_TYPES[3] == t;
      case ShareholderMeeting => assert LOOKUP_ACTION_TYPES[4] == t;
      case BoardTransfer => assert LOOKUP_ACTION_TYPES[5] == t;
      case TradingStatusChange => assert LOOKUP_ACTION_TYPES[6] == t;
    }
    forall s | s in LOOKUP_ACTION_TYPE_NAMES ensures exists t :: Name(t) == s {
      if s == "Cash Dividend" { assert Name(CashDividend) == s; }
      else if s == "Bonus Issue" { assert Name(BonusIssue) == s; }
      else if s == "Stock Split/Consolidation" { assert Name(StockSplitConsolidation) == s; }
      else if s == "Ticker Change" { assert Name(TickerChange) == s; }
      else if s == "Shareholder Meeting" { assert Name(ShareholderMeeting) == s; }
      else if s == "Board Transfer" { assert Name(BoardTransfer) == s; }
      else { assert Name(TradingStatusChange) == s; }
    }
  }

  /**
   * A calendar date. Records carry `YYYY-MM-DD` text; the model keeps the
   * parsed date: `IsoRoundTrip` and `IsoTextOfParse` show that a date and its
   * text determine each other, so nothing is lost.
   */
  datatype Date = Date(year: nat, month: nat, day: nat)

  predicate ValidDate(d: Date)
  {
    d.year <= 9999 && 1 <= d.month <= 12 && 1 <= d.day <= 31
  }

  /**
   * A day ordinal: a number that orders dates the way the calendar does
   * (it skips the non-existent days 29..31 of short months, which does not
   * change any comparison).
   */
  function DayNumber(d: Date): int
  {
    d.year * 372 + (d.month - 1) * 31 + (d.day - 1)
  }

  /** Calendar order: year first, then month, then day. */
  predicate CalendarBefore(a: Date, b: Date)
  {
    a.year < b.year
    || (a.year == b.year && a.month < b.month)
    || (a.year == b.year && a.month == b.month && a.day < b.day)
  }

  /** Comparing day ordinals is comparing calendar dates. */
  lemma DayNumberOrder(a: Date, b: Date)
    requires ValidDate(a) && ValidDate(b)
    ensures DayNumber(a) < DayNumber(b) <==> CalendarBefore(a, b)
    ensures DayNumber(a) == DayNumber(b) <==> a == b
  {
    var ra := (a.month - 1) * 31 + (a.day - 1);
    var rb := (b.month - 1) * 31 + (b.day - 1);
    assert 0 <= ra < 372 && 0 <= rb < 372;
    if a.year < b.year {
      assert a.year * 372 + 372 <= b.year * 372;
    } else if a.year > b.year {
      assert b.year * 372 + 372 <= a.year * 372;
    }
  }

  /** The decimal digit character of `n`, for `n < 10`. */
  function DigitChar(n: nat): char
    requires n < 10
  {
    ('0' as int + n) as char
  }

  predicate IsDigit(c: char)
  {
    '0' <= c <= '9'
  }

  function Pow10(w: nat): (r: nat)
    ensures r >= 1
  {
    if w == 0 then 1 else 10 * Pow10(w - 1)
  }

  /** `n` written with exactly `w` digits, zero padded on the left. */
  function Digits(n: nat, w: nat): (r: string)
    ensures |r| == w
    ensures forall i :: 0 <= i < w ==> IsDigit(r[i])
  {
    if w == 0 then "" else Digits(n / 10, w - 1) + [DigitChar(n % 10)]
  }

  /** The value of a string of decimal digits. */
  function DigitsValue(s: string): nat
    requires forall i :: 0 <= i < |s| ==> IsDigit(s[i])
  {
    if s == [] then 0
    else 10 * DigitsValue(s[..|s| - 1]) + DigitOf(s[|s| - 1])
  }

  function DigitOf(c: char): (n: nat)
    requires IsDigit(c)
    ensures n < 10 && DigitChar(n) == c
  {
    c as int - '0' as int
  }

  lemma {:induction false} DigitsRoundTrip(n: nat, w: nat)
    requires n < Pow10(w)
    ensures DigitsValue(Digits(n, w)) == n
  {
    if w > 0 {
      var r := Digits(n, w);
      var last := DigitChar(n % 10);
      assert r == Digits(n / 10, w - 1) + [last];
      assert r[..w - 1] == Digits(n / 10, w - 1);
      assert r[w - 1] == last;
      assert DigitOf(last) == n % 10;
      assert n / 10 < Pow10(w - 1);
      DigitsRoundTrip(n / 10, w - 1);
      assert DigitsValue(r) == 10 * (n / 10) + n % 10;
    }
  }

  /** The `YYYY-MM-DD` text of a date. */
  function IsoText(d: Date): (r: string)
    ensures |r| == 10 && r[4] == '-' && r[7] == '-'
  {
    Digits(d.year, 4) + "-" + Digits(d.month, 2) + "-" + Digits(d.day, 2)
  }

  /** Reads `YYYY-MM-DD` text; anything else is not a date. */
  function ParseIso(s: string): (r: Option<Date>)
    ensures r.Some? ==> |s| == 10
  {
    if |s| == 10 && s[4] == '-' && s[7] == '-'
       && (forall i :: 0 <= i < 10 && i != 4 && i != 7 ==> IsDigit(s[i]))
    then
      var d := Date(DigitsValue(s[..4]), DigitsValue(s[5..7]), DigitsValue(s[8..]));
      if ValidDate(d) then Some(d) else None
    else None
  }

  lemma IsoRoundTrip(d: Date)
    requires ValidDate(d)
    ensures ParseIso(IsoText(d)) == Some(d)
  {
    var s := IsoText(d);
    assert s[..4] == Digits(d.year, 4);
    assert s[5..7] == Digits(d.month, 2);
    assert s[8..] == Digits(d.day, 2);
    DigitsRoundTrip(d.year, 4);
    DigitsRoundTrip(d.month, 2);
    DigitsRoundTrip(d.day, 2);
  }

  /** Writing the value of a digit string with as many digits gives the string back. */
  lemma {:induction false} DigitsOfValue(t: string)
    requires forall i :: 0 <= i < |t| ==> IsDigit(t[i])
    ensures Digits(DigitsValue(t), |t|) == t
  {
    if t != [] {
      var init, last := t[..|t| - 1], t[|t| - 1];
      var n := DigitsValue(t);
      DigitsOfValue(init);
      assert n / 10 == DigitsValue(init) && n % 10 == DigitOf(last);
      assert t == init + [last];
    }
  }

  /** Text that reads as a date is exactly that date's `YYYY-MM-DD` text. */
  lemma IsoTextOfParse(s: string)
    requires ParseIso(s).Some?
    ensures IsoText(ParseIso(s).value) == s
  {
    DigitsOfValue(s[..4]);
    DigitsOfValue(s[5..7]);
    DigitsOfValue(s[8..]);
    assert s == s[..4] + "-" + s[5..7] + "-" + s[8..];
  }

  /** One corporate-action record; `before` and `after` are optional properties. */
  datatype StockAction = StockAction(
    id: string,
    announcementDate: Date,
    ticker: string,
    companyName: string,
    actionType: ActionType,
    actionDetails: string,
    effectiveDate: Date,
    before: Option<string>,
    after: Option<string>)
}
