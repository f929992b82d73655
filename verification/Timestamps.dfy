/** Recording start times and search bounds as text (src/search_db/text.rs, src/archive.rs, src/query_service.rs).
  * Times are compared as text everywhere: here that order is shown to be the order of time. A text stands for its
  * UTF-8 bytes, one per character. */
module Timestamps {
  import opened Wrappers
  import opened TextOrder

  // ---------------------------------------------------------------- the shape of a date and of a timestamp

  type Separators = seq<(nat, char)>

  const DATE_SEPARATORS: Separators := [(4, '-'), (7, '-')]
  const TIMESTAMP_SEPARATORS: Separators := [(4, '-'), (7, '-'), (10, '_'), (13, '-'), (16, '-')]

  predicate IsDigit(c: char) {
    '0' <= c <= '9'
  }

  /** The separator expected at `index`: the first one listed for it. */
  function SeparatorAt(separators: Separators, index: nat): Option<char> {
    if separators == [] then None
    else if separators[0].0 == index then Some(separators[0].1)
    else SeparatorAt(separators[1..], index)
  }

  predicate FitsAt(c: char, separators: Separators, index: nat) {
    match SeparatorAt(separators, index)
    case Some(separator) => c == separator
    case None => IsDigit(c)
  }

  predicate MatchesDigitShape(input: string, len: nat, separators: Separators) {
    |input| == len && forall i :: 0 <= i < |input| ==> FitsAt(input[i], separators, i)
  }

  function Number(digits: string): int {
    if digits == "" then 0
    else Number(digits[..|digits| - 1]) * 10 + (digits[|digits| - 1] as int - '0' as int)
  }

  function Field(s: string, start: nat, width: nat): int
    requires start + width <= |s|
  {
    Number(s[start..start + width])
  }

  // ---------------------------------------------------------------- the calendar

  datatype Moment = Moment(year: int, month: int, day: int, hour: int, minute: int, second: int)

  predicate IsLeapYear(year: int) {
    year % 4 == 0 && (year % 100 != 0 || year % 400 == 0)
  }

  function DaysInMonth(year: int, month: int): int {
    if month == 2 then (if IsLeapYear(year) then 29 else 28)
    else if month in {4, 6, 9, 11} then 30
    else 31
  }

  predicate ValidDate(m: Moment) {
    0 <= m.year && 1 <= m.month <= 12 && 1 <= m.day <= DaysInMonth(m.year, m.month)
  }

  /** A second of 60 is a leap second, which the date parser lets through. */
  predicate ValidTime(m: Moment) {
    0 <= m.hour < 24 && 0 <= m.minute < 60 && 0 <= m.second <= 60
  }

  predicate ValidMoment(m: Moment) {
    ValidDate(m) && ValidTime(m)
  }

  function DaysBeforeYear(year: nat): int {
    if year == 0 then 0
    else DaysBeforeYear(year - 1) + (if IsLeapYear(year - 1) then 366 else 365)
  }

  function DaysBeforeMonth(year: int, month: nat): int {
    if month <= 1 then 0
    else DaysBeforeMonth(year, month - 1) + DaysInMonth(year, month - 1)
  }

  /** Days elapsed since the first day of year 0. */
  function DayNumber(m: Moment): int
    requires ValidDate(m)
  {
    DaysBeforeYear(m.year) + DaysBeforeMonth(m.year, m.month) + m.day - 1
  }

  function MinuteNumber(m: Moment): int
    requires ValidMoment(m)
  {
    (DayNumber(m) * 24 + m.hour) * 60 + m.minute
  }

  /** Seconds counted with every minute 60 seconds long. */
  function SecondNumber(m: Moment): int
    requires ValidMoment(m)
  {
    MinuteNumber(m) * 60 + m.second
  }

  /** Chronological order: by the minute, and by the second within one minute. */
  predicate Before(a: Moment, b: Moment)
    requires ValidMoment(a) && ValidMoment(b)
  {
    MinuteNumber(a) < MinuteNumber(b) || (MinuteNumber(a) == MinuteNumber(b) && a.second < b.second)
  }

  /** Leap years counted from outside: every fourth year before this one, less the hundredths, plus the four
    * hundredths. */
  lemma {:induction false} DaysBeforeYearClosed(year: nat)
    ensures DaysBeforeYear(year) == 365 * year + (year + 3) / 4 - (year + 99) / 100 + (year + 399) / 400
  {
    if year > 0 {
      DaysBeforeYearClosed(year - 1);
      OneMoreFourth(year - 1);
      OneMoreHundredth(year - 1);
      OneMoreFourHundredth(year - 1);
      MultiplesNest(year - 1);
    }
  }

  lemma {:induction false} OneMoreFourth(y: nat)
    ensures (y + 1 + 3) / 4 == (y + 3) / 4 + if y % 4 == 0 then 1 else 0
  {
  }

  lemma {:induction false} OneMoreHundredth(y: nat)
    ensures (y + 1 + 99) / 100 == (y + 99) / 100 + if y % 100 == 0 then 1 else 0
  {
  }

  lemma {:induction false} OneMoreFourHundredth(y: nat)
    ensures (y + 1 + 399) / 400 == (y + 399) / 400 + if y % 400 == 0 then 1 else 0
  {
  }

  lemma {:induction false} MultiplesNest(y: nat)
    ensures y % 400 == 0 ==> y % 100 == 0
    ensures y % 100 == 0 ==> y % 4 == 0
  {
    if y % 400 == 0 {
      var k := 4 * (y / 400);
      assert y == 100 * k;
    }
    if y % 100 == 0 {
      var k := 25 * (y / 100);
      assert y == 4 * k;
    }
  }

  lemma {:induction false} FourthsRepeat(y: nat)
    ensures (y + 400) % 4 == y % 4
  {
    assert y + 400 == 4 * (y / 4 + 100) + y % 4;
  }

  lemma {:induction false} HundredthsRepeat(y: nat)
    ensures (y + 400) % 100 == y % 100
  {
    assert y + 400 == 100 * (y / 100 + 4) + y % 100;
  }

  lemma {:induction false} FourHundredthsRepeat(y: nat)
    ensures (y + 400) % 400 == y % 400
  {
    assert y + 400 == 400 * (y / 400 + 1) + y % 400;
  }

  lemma {:induction false} LeapYearsRepeat(year: nat)
    ensures IsLeapYear(year + 400) <==> IsLeapYear(year)
  {
    FourthsRepeat(year);
    HundredthsRepeat(year);
    FourHundredthsRepeat(year);
  }

  /** The calendar repeats after 400 years, which are 146097 days. */
  lemma {:induction false} CalendarRepeats(year: nat)
    ensures DaysBeforeYear(year + 400) == DaysBeforeYear(year) + 146097
    ensures IsLeapYear(year + 400) <==> IsLeapYear(year)
  {
    hide IsLeapYear;
    LeapYearsRepeat(year);
    if year == 0 {
      hide DaysBeforeYear;
      DaysBeforeYearClosed(0);
      DaysBeforeYearClosed(400);
    } else {
      CalendarRepeats(year - 1);
      assert DaysBeforeYear(year) == DaysBeforeYear(year - 1) + if IsLeapYear(year - 1) then 366 else 365;
      assert DaysBeforeYear(year + 400) == DaysBeforeYear(year + 399) + if IsLeapYear(year + 399) then 366 else 365;
    }
  }

  /** The lengths of the months, and of the year they make up. */
  lemma {:induction false} MonthLengths(year: nat, month: nat)
    requires 1 <= month <= 12
    ensures var february := DaysBeforeYear(year + 1) - DaysBeforeYear(year) - 337;
      DaysInMonth(year, month) == [31, february, 31, 30, 31, 30, 31, 31, 30, 31, 30, 31][month - 1]
    ensures DaysBeforeYear(year + 1) == DaysBeforeYear(year) + DaysBeforeMonth(year, 13)
  {
    MonthsAddUp(year);
  }

  lemma {:induction false} MonthsAddUp(year: nat)
    ensures DaysBeforeMonth(year, 7) == 153 + DaysInMonth(year, 2)
    ensures DaysBeforeMonth(year, 13) == DaysBeforeMonth(year, 7) + 184
  {
    assert DaysBeforeMonth(year, 1) == 0;
    assert DaysBeforeMonth(year, 2) == 31;
    assert DaysBeforeMonth(year, 3) == 31 + DaysInMonth(year, 2);
    assert DaysBeforeMonth(year, 4) == 62 + DaysInMonth(year, 2);
    assert DaysBeforeMonth(year, 5) == 92 + DaysInMonth(year, 2);
    assert DaysBeforeMonth(year, 6) == 123 + DaysInMonth(year, 2);
    assert DaysBeforeMonth(year, 8) == DaysBeforeMonth(year, 7) + 31;
    assert DaysBeforeMonth(year, 9) == DaysBeforeMonth(year, 7) + 62;
    assert DaysBeforeMonth(year, 10) == DaysBeforeMonth(year, 7) + 92;
    assert DaysBeforeMonth(year, 11) == DaysBeforeMonth(year, 7) + 123;
    assert DaysBeforeMonth(year, 12) == DaysBeforeMonth(year, 7) + 153;
  }

  // ---------------------------------------------------------------- parsing

  function DateOf(s: string): Moment
    requires 10 <= |s|
  {
    Moment(Field(s, 0, 4), Field(s, 5, 2), Field(s, 8, 2), 0, 0, 0)
  }

  function MomentOf(s: string): Moment
    requires 19 <= |s|
  {
    DateOf(s).(hour := Field(s, 11, 2), minute := Field(s, 14, 2), second := Field(s, 17, 2))
  }

  predicate IsDate(s: string) {
    MatchesDigitShape(s, 10, DATE_SEPARATORS) && ValidDate(DateOf(s))
  }

  predicate IsTimestamp(s: string) {
    MatchesDigitShape(s, 19, TIMESTAMP_SEPARATORS) && ValidMoment(MomentOf(s))
  }

  // ---------------------------------------------------------------- comparing texts of one shape

  /** Texts of one length compare by their first k characters, then by the rest. */
  lemma {:induction false} ComparesByPrefix(a: string, b: string, k: nat)
    requires |a| == |b| && k <= |a|
    ensures TextLess(a, b) <==> TextLess(a[..k], b[..k]) || (a[..k] == b[..k] && TextLess(a[k..], b[k..]))
  {
    if k == 0 {
      assert a[..0] == b[..0] == "" && a[0..] == a && b[0..] == b;
    } else {
      ComparesByPrefix(a[1..], b[1..], k - 1);
      assert a[..k] == [a[0]] + a[1..][..k - 1] && b[..k] == [b[0]] + b[1..][..k - 1];
      assert a[..k][1..] == a[1..][..k - 1] && b[..k][1..] == b[1..][..k - 1];
      assert a[k..] == a[1..][k - 1..] && b[k..] == b[1..][k - 1..];
    }
  }

  /** Digit texts of one width compare as the numbers they write. */
  lemma {:induction false} DigitsCompareAsNumbers(a: string, b: string)
    requires |a| == |b| && forall i :: 0 <= i < |a| ==> IsDigit(a[i]) && IsDigit(b[i])
    ensures TextLess(a, b) <==> Number(a) < Number(b)
    ensures a == b <==> Number(a) == Number(b)
  {
    if |a| > 0 {
      var k := |a| - 1;
      DigitsCompareAsNumbers(a[..k], b[..k]);
      var (m, n) := (Number(a[..k]), Number(b[..k]));
      var (x, y) := (a[k] as int - '0' as int, b[k] as int - '0' as int);
      assert Number(a) == m * 10 + x && Number(b) == n * 10 + y && 0 <= x < 10 && 0 <= y < 10;
      hide Number;
      ComparesByPrefix(a, b, k);
      assert a == a[..k] + [a[k]] && b == b[..k] + [b[k]];
      assert a[k..] == [a[k]] && b[k..] == [b[k]];
      assert TextLess(a[k..], b[k..]) <==> a[k] < b[k];
    }
  }

  /** From position i, texts with a field of the given width and a common separator after it compare by the field,
    * then by what follows the separator. */
  lemma {:induction false} ComparesByField(a: string, b: string, i: nat, width: nat)
    requires |a| == |b| && i + width < |a| && a[i + width] == b[i + width]
    requires forall j :: i <= j < i + width ==> IsDigit(a[j]) && IsDigit(b[j])
    ensures TextLess(a[i..], b[i..]) <==>
      Field(a, i, width) < Field(b, i, width)
      || (Field(a, i, width) == Field(b, i, width) && TextLess(a[i + width + 1..], b[i + width + 1..]))
  {
    var (x, y) := (a[i..], b[i..]);
    ComparesByPrefix(x, y, width);
    assert x[..width] == a[i..i + width] && y[..width] == b[i..i + width];
    DigitsCompareAsNumbers(x[..width], y[..width]);
    assert x[width..][1..] == a[i + width + 1..] && y[width..][1..] == b[i + width + 1..];
    assert x[width..][0] == y[width..][0];
  }

  predicate FieldsLess(a: Moment, b: Moment) {
    || a.year < b.year
    || (a.year == b.year && (a.month < b.month
    || (a.month == b.month && (a.day < b.day
    || (a.day == b.day && (a.hour < b.hour
    || (a.hour == b.hour && (a.minute < b.minute
    || (a.minute == b.minute && a.second < b.second)))))))))
  }

  predicate TimestampSeparatorsAt(s: string)
    requires |s| == 19
  {
    s[4] == '-' && s[7] == '-' && s[10] == '_' && s[13] == '-' && s[16] == '-'
  }

  lemma {:induction false} TimestampShape(s: string)
    requires MatchesDigitShape(s, 19, TIMESTAMP_SEPARATORS)
    ensures TimestampSeparatorsAt(s)
    ensures forall i :: 0 <= i < 19 && i !in {4, 7, 10, 13, 16} ==> IsDigit(s[i])
  {
    forall i | 0 <= i < 19
      ensures FitsAt(s[i], TIMESTAMP_SEPARATORS, i)
      ensures i !in {4, 7, 10, 13, 16} ==> IsDigit(s[i])
    {
      TimestampSeparatorAt(i);
    }
    TimestampSeparatorAt(4);
    TimestampSeparatorAt(7);
    TimestampSeparatorAt(10);
    TimestampSeparatorAt(13);
    TimestampSeparatorAt(16);
  }

  lemma {:induction false} TimestampSeparatorAt(i: nat)
    ensures SeparatorAt(TIMESTAMP_SEPARATORS, i) ==
      if i == 10 then Some('_') else if i in {4, 7, 13, 16} then Some('-') else None
  {
    var s1 := TIMESTAMP_SEPARATORS[1..];
    var s2 := s1[1..];
    var s3 := s2[1..];
    var s4 := s3[1..];
    assert s1 == [(7, '-'), (10, '_'), (13, '-'), (16, '-')];
    assert s2 == [(10, '_'), (13, '-'), (16, '-')];
    assert s3 == [(13, '-'), (16, '-')];
    assert s4 == [(16, '-')];
    assert SeparatorAt(s4, i) == if i == 16 then Some('-') else None;
    assert SeparatorAt(s3, i) == if i in {13, 16} then Some('-') else None;
    assert SeparatorAt(s2, i) == if i == 10 then Some('_') else if i in {13, 16} then Some('-') else None;
  }

  lemma {:induction false} ComparesByLastField(a: string, b: string)
    requires |a| == |b| == 19 && IsDigit(a[17]) && IsDigit(a[18]) && IsDigit(b[17]) && IsDigit(b[18])
    ensures TextLess(a[17..], b[17..]) <==> Field(a, 17, 2) < Field(b, 17, 2)
  {
    hide Number;
    assert a[17..19] == a[17..] && b[17..19] == b[17..];
    DigitsCompareAsNumbers(a[17..], b[17..]);
  }

  lemma {:induction false} TimestampsCompareByFields(a: string, b: string)
    requires MatchesDigitShape(a, 19, TIMESTAMP_SEPARATORS) && MatchesDigitShape(b, 19, TIMESTAMP_SEPARATORS)
    ensures TextLess(a, b) <==> FieldsLess(MomentOf(a), MomentOf(b))
  {
    hide FitsAt, Number;
    TimestampShape(a);
    TimestampShape(b);
    assert a[0..] == a && b[0..] == b;
    ComparesByField(a, b, 0, 4);
    ComparesByField(a, b, 5, 2);
    ComparesByField(a, b, 8, 2);
    ComparesByField(a, b, 11, 2);
    ComparesByField(a, b, 14, 2);
    ComparesByLastField(a, b);
    hide TextLess, Field;
  }

  // ---------------------------------------------------------------- the order of fields is the order of time

  lemma {:induction false} YearsAscend(a: nat, b: nat)
    requires a < b
    ensures DaysBeforeYear(a) + (if IsLeapYear(a) then 366 else 365) <= DaysBeforeYear(b)
  {
    if a < b - 1 {
      YearsAscend(a, b - 1);
    }
  }

  lemma {:induction false} MonthsAscend(year: int, a: nat, b: nat)
    requires 1 <= a < b
    ensures DaysBeforeMonth(year, a) + DaysInMonth(year, a) <= DaysBeforeMonth(year, b)
  {
    if a < b - 1 {
      MonthsAscend(year, a, b - 1);
    }
  }

  lemma {:induction false} DayNumberWithinYear(m: Moment)
    requires ValidDate(m)
    ensures DaysBeforeYear(m.year) <= DayNumber(m)
    ensures DayNumber(m) < DaysBeforeYear(m.year) + (if IsLeapYear(m.year) then 366 else 365)
  {
    var y := m.year;
    if 1 < m.month {
      MonthsAscend(y, 1, m.month);
    }
    if m.month < 12 {
      MonthsAscend(y, m.month, 12);
    }
    assert DaysBeforeMonth(y, 2) == 31;
    assert DaysBeforeMonth(y, 3) == 31 + DaysInMonth(y, 2);
    var march := DaysBeforeMonth(y, 3);
    assert DaysBeforeMonth(y, 4) == march + 31;
    assert DaysBeforeMonth(y, 5) == march + 61;
    assert DaysBeforeMonth(y, 6) == march + 92;
    assert DaysBeforeMonth(y, 7) == march + 122;
    assert DaysBeforeMonth(y, 8) == march + 153;
    assert DaysBeforeMonth(y, 9) == march + 184;
    assert DaysBeforeMonth(y, 10) == march + 214;
    assert DaysBeforeMonth(y, 11) == march + 245;
    assert DaysBeforeMonth(y, 12) == march + 275;
  }

  predicate DateLess(a: Moment, b: Moment) {
    a.year < b.year || (a.year == b.year && (a.month < b.month || (a.month == b.month && a.day < b.day)))
  }

  lemma {:induction false} EarlierDateSmallerDay(a: Moment, b: Moment)
    requires ValidDate(a) && ValidDate(b) && DateLess(a, b)
    ensures DayNumber(a) < DayNumber(b)
  {
    if a.year < b.year {
      DayNumberWithinYear(a);
      DayNumberWithinYear(b);
      YearsAscend(a.year, b.year);
    } else if a.month < b.month {
      MonthsAscend(a.year, a.month, b.month);
    }
  }

  lemma {:induction false} DayNumberOrder(a: Moment, b: Moment)
    requires ValidDate(a) && ValidDate(b)
    ensures DateLess(a, b) <==> DayNumber(a) < DayNumber(b)
    ensures DayNumber(a) == DayNumber(b) <==> a.year == b.year && a.month == b.month && a.day == b.day
  {
    if DateLess(a, b) {
      EarlierDateSmallerDay(a, b);
    } else if DateLess(b, a) {
      EarlierDateSmallerDay(b, a);
    }
  }

  lemma {:induction false} FieldsOrderIsTime(a: Moment, b: Moment)
    requires ValidMoment(a) && ValidMoment(b)
    ensures FieldsLess(a, b) <==> Before(a, b)
  {
    hide DayNumber;
    DayNumberOrder(a, b);
  }

  /** Timestamps compare as text exactly as the moments they name compare in time. */
  lemma {:induction false} TextOrderIsTime(a: string, b: string)
    requires IsTimestamp(a) && IsTimestamp(b)
    ensures TextLess(a, b) <==> Before(MomentOf(a), MomentOf(b))
    ensures a == b <==> MomentOf(a) == MomentOf(b)
  {
    hide FitsAt, MinuteNumber, DateOf, Number, Field;
    TimestampsCompareByFields(a, b);
    TimestampsCompareByFields(b, a);
    FieldsOrderIsTime(MomentOf(a), MomentOf(b));
    TextLessTotal(a, b);
  }

  /** Text order agrees with the plain count of seconds unless the first text is a leap second and the second the
    * start of the next minute, which that count cannot tell apart. */
  lemma {:induction false} SecondsOrderIff(a: string, b: string)
    requires IsTimestamp(a) && IsTimestamp(b)
    ensures (TextLess(a, b) <==> SecondNumber(MomentOf(a)) < SecondNumber(MomentOf(b)))
      <==> !(MomentOf(a).second == 60 && MomentOf(b).second == 0 && MinuteNumber(MomentOf(b)) == MinuteNumber(MomentOf(a)) + 1)
  {
    hide FitsAt, DayNumber, DateOf, Number, Field;
    TextOrderIsTime(a, b);
  }

  // ---------------------------------------------------------------- search bounds

  const DAY_START := "00-00-00"
  const DAY_END := "23-59-59"

  /** A bound completed with a time of day when it is only a date; None when it is neither a date nor a timestamp. */
  function ExpandBound(input: string, timeOfDay: string): Option<string> {
    if |input| == 10 then
      if !MatchesDigitShape(input, 10, DATE_SEPARATORS) then None
      else if !ValidDate(DateOf(input)) then None
      else Some(input + "_" + timeOfDay)
    else if |input| == 19 then
      if !MatchesDigitShape(input, 19, TIMESTAMP_SEPARATORS) then None
      else if !ValidMoment(MomentOf(input)) then None
      else Some(input)
    else None
  }

  datatype BoundError = BadFrom | BadTo | Reversed

  datatype Bounds = Bounds(from: Option<string>, to: Option<string>)

  /** An empty parameter counts as absent. */
  predicate Given(value: Option<string>) {
    value.Some? && value.value != ""
  }

  function CheckedBounds(from: Option<string>, to: Option<string>): Result<Bounds, BoundError> {
    var lower := if Given(from) then ExpandBound(from.value, DAY_START) else None;
    var upper := if Given(to) then ExpandBound(to.value, DAY_END) else None;
    if Given(from) && lower.None? then Err(BadFrom)
    else if Given(to) && upper.None? then Err(BadTo)
    else if lower.Some? && upper.Some? && TextLess(upper.value, lower.value) then Err(Reversed)
    else Ok(Bounds(lower, upper))
  }

  /** The program filter's two time conditions. */
  predicate Selects(bounds: Bounds, startedAt: string) {
    && (bounds.from.None? || !TextLess(startedAt, bounds.from.value))
    && (bounds.to.None? || !TextLess(bounds.to.value, startedAt))
  }

  predicate IsBound(s: string) {
    IsDate(s) || IsTimestamp(s)
  }

  /** The first moment a bound covers. */
  function Opening(s: string): (m: Moment)
    requires IsBound(s)
    ensures ValidMoment(m)
  {
    if |s| == 10 then DateOf(s) else MomentOf(s)
  }

  /** The last moment a bound covers. */
  function Closing(s: string): (m: Moment)
    requires IsBound(s)
    ensures ValidMoment(m)
  {
    if |s| == 10 then DateOf(s).(hour := 23, minute := 59, second := 59) else MomentOf(s)
  }

  lemma {:induction false} DateShape(s: string)
    requires MatchesDigitShape(s, 10, DATE_SEPARATORS)
    ensures s[4] == '-' && s[7] == '-'
    ensures forall i :: 0 <= i < 10 && i !in {4, 7} ==> IsDigit(s[i])
  {
    forall i | 0 <= i < 10
      ensures FitsAt(s[i], DATE_SEPARATORS, i)
      ensures i !in {4, 7} ==> IsDigit(s[i])
    {
      DateSeparatorAt(i);
    }
    DateSeparatorAt(4);
    DateSeparatorAt(7);
  }

  lemma {:induction false} DateSeparatorAt(i: nat)
    ensures SeparatorAt(DATE_SEPARATORS, i) == if i in {4, 7} then Some('-') else None
  {
    var rest := DATE_SEPARATORS[1..];
    assert rest == [(7, '-')];
    assert SeparatorAt(rest, i) == if i == 7 then Some('-') else None;
  }

  /** A time of day written as HH-MM-SS. */
  predicate IsTimeOfDay(t: string) {
    && |t| == 8 && t[2] == '-' && t[5] == '-'
    && forall i :: 0 <= i < 8 && i !in {2, 5} ==> IsDigit(t[i])
  }

  lemma {:induction false} DateWithTimeFits(date: string, t: string)
    requires MatchesDigitShape(date, 10, DATE_SEPARATORS) && IsTimeOfDay(t)
    ensures MatchesDigitShape(date + "_" + t, 19, TIMESTAMP_SEPARATORS)
  {
    DateShape(date);
    var s := date + "_" + t;
    forall i | 0 <= i < |s|
      ensures FitsAt(s[i], TIMESTAMP_SEPARATORS, i)
    {
      TimestampSeparatorAt(i);
    }
  }

  lemma {:induction false} DateWithTimeNames(date: string, t: string)
    requires |date| == 10 && |t| == 8
    ensures MomentOf(date + "_" + t)
      == DateOf(date).(hour := Field(t, 0, 2), minute := Field(t, 3, 2), second := Field(t, 6, 2))
  {
    hide Number;
    var s := date + "_" + t;
    assert s[0..4] == date[0..4] && s[5..7] == date[5..7] && s[8..10] == date[8..10];
    assert s[11..13] == t[0..2] && s[14..16] == t[3..5] && s[17..19] == t[6..8];
  }

  lemma {:induction false} TwoDigits(s: string)
    requires |s| == 2
    ensures Number(s) == (s[0] as int - '0' as int) * 10 + (s[1] as int - '0' as int)
  {
    var tens := s[..1];
    assert tens[..0] == "" && tens[0] == s[0];
    assert Number(tens) == s[0] as int - '0' as int;
  }

  lemma {:induction false} DayStartAndEnd()
    ensures Field(DAY_START, 0, 2) == Field(DAY_START, 3, 2) == Field(DAY_START, 6, 2) == 0
    ensures Field(DAY_END, 0, 2) == 23 && Field(DAY_END, 3, 2) == Field(DAY_END, 6, 2) == 59
  {
    TwoDigits(DAY_START[0..2]);
    TwoDigits(DAY_START[3..5]);
    TwoDigits(DAY_START[6..8]);
    TwoDigits(DAY_END[0..2]);
    TwoDigits(DAY_END[3..5]);
    TwoDigits(DAY_END[6..8]);
  }

  /** A bound expands exactly when it is a date or a timestamp, into the timestamp of the first or last moment it
    * covers. */
  lemma {:induction false} ExpansionIsExact(s: string)
    ensures ExpandBound(s, DAY_START).Some? <==> IsBound(s)
    ensures ExpandBound(s, DAY_END).Some? <==> IsBound(s)
    ensures IsBound(s) ==>
      var (first, last) := (ExpandBound(s, DAY_START).value, ExpandBound(s, DAY_END).value);
      && first == (if |s| == 10 then s + "_00-00-00" else s)
      && last == (if |s| == 10 then s + "_23-59-59" else s)
      && IsTimestamp(first) && MomentOf(first) == Opening(s)
      && IsTimestamp(last) && MomentOf(last) == Closing(s)
  {
    hide SeparatorAt, FitsAt, Number, Field;
    if IsBound(s) && |s| == 10 {
      DateWithTimeFits(s, DAY_START);
      DateWithTimeFits(s, DAY_END);
      DateWithTimeNames(s, DAY_START);
      DateWithTimeNames(s, DAY_END);
      DayStartAndEnd();
    }
  }

  /** Accepted bounds select exactly the recordings from the first moment of `from` to the last moment of `to`. */
  lemma {:induction false} SelectsTheInterval(from: Option<string>, to: Option<string>, startedAt: string)
    requires IsTimestamp(startedAt) && CheckedBounds(from, to).Ok?
    ensures Given(from) <==> from.Some? && from.value != ""
    ensures Given(to) <==> to.Some? && to.value != ""
    ensures Given(from) ==> IsBound(from.value)
    ensures Given(to) ==> IsBound(to.value)
    ensures Selects(CheckedBounds(from, to).value, startedAt) <==>
      && (Given(from) ==> !Before(MomentOf(startedAt), Opening(from.value)))
      && (Given(to) ==> !Before(Closing(to.value), MomentOf(startedAt)))
  {
    hide IsTimestamp, IsBound, ExpandBound, Opening, Closing, Before, MomentOf;
    if Given(from) {
      ExpansionIsExact(from.value);
      TextOrderIsTime(startedAt, ExpandBound(from.value, DAY_START).value);
    }
    if Given(to) {
      ExpansionIsExact(to.value);
      TextOrderIsTime(ExpandBound(to.value, DAY_END).value, startedAt);
    }
  }

  /** Bounds are refused exactly when one is neither a date nor a timestamp, or `to` ends before `from` begins. */
  lemma {:induction false} RefusedExactly(from: Option<string>, to: Option<string>)
    ensures Given(from) <==> from.Some? && from.value != ""
    ensures CheckedBounds(from, to) == Err(BadFrom) <==> Given(from) && !IsBound(from.value)
    ensures CheckedBounds(from, to) == Err(BadTo) <==>
      (Given(from) ==> IsBound(from.value)) && Given(to) && !IsBound(to.value)
    ensures CheckedBounds(from, to) == Err(Reversed) <==>
      && Given(from) && IsBound(from.value)
      && Given(to) && IsBound(to.value)
      && Before(Closing(to.value), Opening(from.value))
  {
    hide IsTimestamp, IsBound, ExpandBound, Opening, Closing, Before, MomentOf;
    if Given(from) {
      ExpansionIsExact(from.value);
    }
    if Given(to) {
      ExpansionIsExact(to.value);
    }
    if Given(from) && IsBound(from.value) && Given(to) && IsBound(to.value) {
      TextOrderIsTime(ExpandBound(to.value, DAY_END).value, ExpandBound(from.value, DAY_START).value);
    }
  }

  /** Two dates select the recordings of the whole days between them, except one named for a leap second that ends
    * the last day. */
  lemma {:induction false} DatesSelectWholeDays(from: string, to: string, startedAt: string)
    requires IsDate(from) && IsDate(to) && IsTimestamp(startedAt)
    requires DayNumber(DateOf(from)) <= DayNumber(DateOf(to))
    ensures CheckedBounds(Some(from), Some(to)).Ok?
    ensures Selects(CheckedBounds(Some(from), Some(to)).value, startedAt) <==>
      && DayNumber(DateOf(from)) <= DayNumber(MomentOf(startedAt)) <= DayNumber(DateOf(to))
      && MomentOf(startedAt) != DateOf(to).(hour := 23, minute := 59, second := 60)
  {
    hide ExpandBound, TextLess, FitsAt, Number, Field, DayNumber;
    TimeWithinDay(DateOf(from));
    TimeWithinDay(DateOf(to));
    RefusedExactly(Some(from), Some(to));
    SelectsTheInterval(Some(from), Some(to), startedAt);
    DayNumberOrder(DateOf(to), MomentOf(startedAt));
    TimeWithinDay(MomentOf(startedAt));
  }

  /** The day number depends on the date alone. */
  lemma {:induction false} TimeWithinDay(m: Moment)
    requires ValidDate(m)
    ensures forall h, n, s :: DayNumber(m.(hour := h, minute := n, second := s)) == DayNumber(m)
  {
  }

  // ---------------------------------------------------------------- the texts that are accepted

  /** `n` in exactly `width` decimal digits. */
  function Digits(n: nat, width: nat): (s: string)
    ensures |s| == width && forall i :: 0 <= i < width ==> IsDigit(s[i])
  {
    if width == 0 then "" else Digits(n / 10, width - 1) + ["0123456789"[n % 10]]
  }

  function WrittenDate(m: Moment): string
    requires m.year >= 0 && m.month >= 0 && m.day >= 0
  {
    Digits(m.year, 4) + "-" + Digits(m.month, 2) + "-" + Digits(m.day, 2)
  }

  function WrittenTime(m: Moment): string
    requires m.hour >= 0 && m.minute >= 0 && m.second >= 0
  {
    Digits(m.hour, 2) + "-" + Digits(m.minute, 2) + "-" + Digits(m.second, 2)
  }

  function TenTo(width: nat): nat {
    if width == 0 then 1 else 10 * TenTo(width - 1)
  }

  lemma {:induction false} DigitsRead(n: nat, width: nat)
    requires n < TenTo(width)
    ensures Number(Digits(n, width)) == n
  {
    if width > 0 {
      DigitsRead(n / 10, width - 1);
      assert Digits(n, width)[..width - 1] == Digits(n / 10, width - 1);
    }
  }

  lemma {:induction false} TenSplit(n: nat, d: nat)
    requires d < 10
    ensures (n * 10 + d) / 10 == n && (n * 10 + d) % 10 == d
  {
  }

  lemma {:induction false} DigitWritten(c: char)
    requires IsDigit(c)
    ensures "0123456789"[c as int - '0' as int] == c
  {
  }

  lemma {:induction false} NumberWritten(s: string)
    requires forall i :: 0 <= i < |s| ==> IsDigit(s[i])
    ensures Number(s) >= 0 && Digits(Number(s), |s|) == s
  {
    if s != "" {
      var n := |s| - 1;
      NumberWritten(s[..n]);
      var d := s[n] as int - '0' as int;
      DigitWritten(s[n]);
      var (front, whole) := (Number(s[..n]), Number(s));
      assert whole == front * 10 + d;
      hide Number;
      TenSplit(front, d);
      assert s == s[..n] + [s[n]];
    }
  }

  lemma {:induction false} SmallNumbers()
    ensures TenTo(2) == 100 && TenTo(4) == 10000
  {
    assert TenTo(1) == 10 && TenTo(3) == 1000;
  }

  lemma {:induction false} DateReadsBack(m: Moment)
    requires ValidDate(m) && m.year < 10000
    ensures IsDate(WrittenDate(m)) && DateOf(WrittenDate(m)) == m.(hour := 0, minute := 0, second := 0)
  {
    hide Number, Digits;
    var s := WrittenDate(m);
    SmallNumbers();
    DigitsRead(m.year, 4);
    DigitsRead(m.month, 2);
    DigitsRead(m.day, 2);
    assert s[0..4] == Digits(m.year, 4) && s[5..7] == Digits(m.month, 2) && s[8..10] == Digits(m.day, 2);
    forall i | 0 <= i < |s| ensures FitsAt(s[i], DATE_SEPARATORS, i) {
      DateSeparatorAt(i);
    }
  }

  lemma {:induction false} DateIsWritten(s: string)
    requires MatchesDigitShape(s, 10, DATE_SEPARATORS)
    ensures var m := DateOf(s);
      m.year >= 0 && m.month >= 0 && m.day >= 0 && m.year < 10000 && s == WrittenDate(m)
  {
    hide Number, Digits, MatchesDigitShape;
    assert |s| == 10 by {
      ShapeLength(s, 10, DATE_SEPARATORS);
    }
    DateShape(s);
    NumberWritten(s[0..4]);
    NumberWritten(s[5..7]);
    NumberWritten(s[8..10]);
    FourDigits(s[0..4]);
    assert s == s[0..4] + [s[4]] + s[5..7] + [s[7]] + s[8..10];
  }

  lemma {:induction false} ShapeLength(s: string, len: nat, separators: Separators)
    requires MatchesDigitShape(s, len, separators)
    ensures |s| == len
  {
  }

  lemma {:induction false} FourDigits(s: string)
    requires |s| == 4 && forall i :: 0 <= i < 4 ==> IsDigit(s[i])
    ensures Number(s) < 10000
  {
    assert Number(s[..2][..1]) < 10 by {
      assert s[..2][..1][..0] == "";
    }
    assert s[..3][..2] == s[..2] && Number(s[..2]) < 100;
    assert Number(s[..3]) < 1000;
  }

  lemma {:induction false} TimeIsWritten(s: string)
    requires MatchesDigitShape(s, 19, TIMESTAMP_SEPARATORS)
    ensures |s| == 19
    ensures var m := MomentOf(s);
      m.hour >= 0 && m.minute >= 0 && m.second >= 0 && s[10..] == "_" + WrittenTime(m)
  {
    hide Number, Digits, MatchesDigitShape;
    ShapeLength(s, 19, TIMESTAMP_SEPARATORS);
    TimestampShape(s);
    NumberWritten(s[11..13]);
    NumberWritten(s[14..16]);
    NumberWritten(s[17..19]);
    assert s[10..] == [s[10]] + s[11..13] + [s[13]] + s[14..16] + [s[16]] + s[17..19];
  }

  lemma {:induction false} TimestampStartsWithDate(s: string)
    requires MatchesDigitShape(s, 19, TIMESTAMP_SEPARATORS)
    ensures |s| == 19 && MatchesDigitShape(s[..10], 10, DATE_SEPARATORS) && DateOf(s[..10]) == DateOf(s)
  {
    hide Number;
    TimestampShape(s);
    forall i | 0 <= i < 10 ensures FitsAt(s[..10][i], DATE_SEPARATORS, i) {
      DateSeparatorAt(i);
    }
    assert s[..10][0..4] == s[0..4] && s[..10][5..7] == s[5..7] && s[..10][8..10] == s[8..10];
  }

  /** The accepted dates are exactly the days of the calendar up to the year 9999 written as YYYY-MM-DD, and each is
    * read as the day it is written from. */
  lemma {:induction false} DatesAreWritten(s: string)
    ensures IsDate(s) ==> ValidDate(DateOf(s)) && DateOf(s).year < 10000 && s == WrittenDate(DateOf(s))
    ensures forall m :: ValidDate(m) && m.year < 10000 ==>
      IsDate(WrittenDate(m)) && DateOf(WrittenDate(m)) == m.(hour := 0, minute := 0, second := 0)
  {
    hide Number, Digits;
    if IsDate(s) {
      DateIsWritten(s);
    }
    forall m | ValidDate(m) && m.year < 10000
      ensures IsDate(WrittenDate(m)) && DateOf(WrittenDate(m)) == m.(hour := 0, minute := 0, second := 0)
    {
      DateReadsBack(m);
    }
  }

  lemma {:induction false} MomentReadsBack(m: Moment)
    requires ValidMoment(m) && m.year < 10000
    ensures IsTimestamp(WrittenDate(m) + "_" + WrittenTime(m)) && MomentOf(WrittenDate(m) + "_" + WrittenTime(m)) == m
  {
    hide Number, Digits, IsDate;
    var t := WrittenTime(m);
    SmallNumbers();
    DigitsRead(m.hour, 2);
    DigitsRead(m.minute, 2);
    DigitsRead(m.second, 2);
    assert t[0..2] == Digits(m.hour, 2) && t[3..5] == Digits(m.minute, 2) && t[6..8] == Digits(m.second, 2);
    DateReadsBack(m);
    assert MatchesDigitShape(WrittenDate(m), 10, DATE_SEPARATORS) by {
      IsDateHasShape(WrittenDate(m));
    }
    DateWithTimeFits(WrittenDate(m), t);
    DateWithTimeNames(WrittenDate(m), t);
  }

  lemma {:induction false} IsDateHasShape(s: string)
    requires IsDate(s)
    ensures MatchesDigitShape(s, 10, DATE_SEPARATORS)
  {
  }

  /** The accepted timestamps are exactly the moments up to the year 9999 written as YYYY-MM-DD_HH-MM-SS, and each is
    * read as the moment it is written from. */
  lemma {:induction false} TimestampsAreWritten(s: string)
    ensures IsTimestamp(s) ==>
      var m := MomentOf(s);
      ValidMoment(m) && m.year < 10000 && s == WrittenDate(m) + "_" + WrittenTime(m)
    ensures forall m :: ValidMoment(m) && m.year < 10000 ==>
      IsTimestamp(WrittenDate(m) + "_" + WrittenTime(m)) && MomentOf(WrittenDate(m) + "_" + WrittenTime(m)) == m
  {
    hide Number, Digits, MatchesDigitShape;
    if IsTimestamp(s) {
      TimestampStartsWithDate(s);
      DateIsWritten(s[..10]);
      TimeIsWritten(s);
      assert s == s[..10] + s[10..];
    }
    forall m | ValidMoment(m) && m.year < 10000
      ensures IsTimestamp(WrittenDate(m) + "_" + WrittenTime(m)) && MomentOf(WrittenDate(m) + "_" + WrittenTime(m)) == m
    {
      MomentReadsBack(m);
    }
  }
}
