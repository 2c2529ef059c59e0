/**
 * The last `count` calendar labels ending on a given day.
 *
 * The source steps over UTC midnights in milliseconds and lets the engine turn
 * each one back into a date. The engine's side is section 21.4.1 of ECMA-262:
 * day numbers, the year of a day, and the date-time string format. The result
 * is compared with a window walked back on the calendar one day at a time.
 */
module DayKeys {
  import opened Options

  // --- the calendar -----------------------------------------------------------------

  datatype Date = Date(year: int, month: int, day: int)

  predicate IsLeap(y: int) {
    y % 4 == 0 && (y % 100 != 0 || y % 400 == 0)
  }

  function DaysInMonth(y: int, m: int): int {
    if m == 2 then (if IsLeap(y) then 29 else 28)
    else if m in {4, 6, 9, 11} then 30
    else 31
  }

  predicate IsDate(d: Date) {
    1 <= d.month <= 12 && 1 <= d.day <= DaysInMonth(d.year, d.month)
  }

  /** The day before, by turning back the calendar. */
  function PreviousDay(d: Date): Date {
    if d.day > 1 then d.(day := d.day - 1)
    else if d.month > 1 then Date(d.year, d.month - 1, DaysInMonth(d.year, d.month - 1))
    else Date(d.year - 1, 12, 31)
  }

  /** `count` consecutive days, oldest first, ending on `last`. */
  function Window(last: Date, count: nat): (w: seq<Date>)
    ensures |w| == count
    decreases count
  {
    if count == 0 then [] else Window(PreviousDay(last), count - 1) + [last]
  }

  predicate Earlier(a: Date, b: Date) {
    a.year < b.year || (a.year == b.year && (a.month < b.month || (a.month == b.month && a.day < b.day)))
  }

  // --- day numbers ------------------------------------------------------------------

  /** Days as milliseconds: one UTC day has 86,400,000 of them. */
  function Ms(days: int): int {
    86_400_000 * days
  }

  function DayOf(time: int): int {
    time / 86_400_000
  }

  /** The number of the first day of a year, counted from 1970-01-01. */
  function DayFromYear(y: int): int {
    365 * (y - 1970) + (y - 1969) / 4 - (y - 1901) / 100 + (y - 1601) / 400
  }

  function DaysBeforeMonth(y: int, m: int): int
    requires 1 <= m <= 13
    decreases m
  {
    if m == 1 then 0 else DaysBeforeMonth(y, m - 1) + DaysInMonth(y, m - 1)
  }

  function DayNumber(d: Date): int
    requires IsDate(d)
  {
    DayFromYear(d.year) + DaysBeforeMonth(d.year, d.month) + d.day - 1
  }

  lemma MonthTable(y: int)
    ensures DaysBeforeMonth(y, 13) == if IsLeap(y) then 366 else 365
  {
    assert DaysBeforeMonth(y, 4) == 31 + DaysInMonth(y, 2) + 31;
    assert DaysBeforeMonth(y, 7) == DaysBeforeMonth(y, 4) + 30 + 31 + 30;
    assert DaysBeforeMonth(y, 10) == DaysBeforeMonth(y, 7) + 31 + 31 + 30;
    assert DaysBeforeMonth(y, 13) == DaysBeforeMonth(y, 10) + 31 + 30 + 31;
  }

  lemma Quarter(y: int)
    ensures (y - 1968) / 4 - (y - 1969) / 4 == if y % 4 == 0 then 1 else 0
  {
  }

  lemma Century(y: int)
    ensures (y - 1900) / 100 - (y - 1901) / 100 == if y % 100 == 0 then 1 else 0
  {
  }

  lemma FourCenturies(y: int)
    ensures (y - 1600) / 400 - (y - 1601) / 400 == if y % 400 == 0 then 1 else 0
  {
  }

  lemma LeapRule(y: int)
    ensures y % 400 == 0 ==> y % 100 == 0
    ensures y % 100 == 0 ==> y % 4 == 0
  {
  }

  /** A year is as long as its months. */
  lemma YearLength(y: int)
    ensures DayFromYear(y + 1) == DayFromYear(y) + DaysBeforeMonth(y, 13)
    ensures DaysBeforeMonth(y, 13) == if IsLeap(y) then 366 else 365
  {
    MonthTable(y);
    Quarter(y);
    Century(y);
    FourCenturies(y);
    LeapRule(y);
    assert (y + 1) - 1969 == y - 1968 && (y + 1) - 1901 == y - 1900 && (y + 1) - 1601 == y - 1600;
  }

  /** The largest year that starts no later than the day, found by walking from `y`. */
  function YearUp(n: int, y: int): (r: int)
    requires DayFromYear(y) <= n
    ensures DayFromYear(r) <= n < DayFromYear(r + 1)
    decreases n - DayFromYear(y)
  {
    YearLength(y);
    if n < DayFromYear(y + 1) then y else YearUp(n, y + 1)
  }

  function YearDown(n: int, y: int): (r: int)
    ensures DayFromYear(r) <= n
    decreases DayFromYear(y) - n
  {
    YearLength(y - 1);
    if DayFromYear(y) <= n then y else YearDown(n, y - 1)
  }

  function YearOf(n: int): (r: int)
    ensures DayFromYear(r) <= n < DayFromYear(r + 1)
  {
    YearUp(n, YearDown(n, 1970))
  }

  function MonthOf(y: int, dayOfYear: int, m: int): (r: int)
    requires 1 <= m <= 12 && DaysBeforeMonth(y, m) <= dayOfYear < DaysBeforeMonth(y, 13)
    ensures 1 <= r <= 12 && DaysBeforeMonth(y, r) <= dayOfYear < DaysBeforeMonth(y, r + 1)
    decreases 12 - m
  {
    if m == 12 || dayOfYear < DaysBeforeMonth(y, m + 1) then m else MonthOf(y, dayOfYear, m + 1)
  }

  /** The date of a day number, as the engine recovers it. */
  function DateOf(n: int): (d: Date)
    ensures IsDate(d) && DayNumber(d) == n
  {
    var y := YearOf(n);
    YearLength(y);
    var dayOfYear := n - DayFromYear(y);
    var m := MonthOf(y, dayOfYear, 1);
    Date(y, m, dayOfYear - DaysBeforeMonth(y, m) + 1)
  }

  lemma {:induction false} MonthsOrdered(y: int, m: int, n: int)
    requires 1 <= m < n <= 13
    ensures DaysBeforeMonth(y, m) + DaysInMonth(y, m) <= DaysBeforeMonth(y, n)
    decreases n
  {
    if m < n - 1 { MonthsOrdered(y, m, n - 1); }
  }

  lemma {:induction false} YearsOrdered(y: int, z: int)
    requires y < z
    ensures DayFromYear(y + 1) <= DayFromYear(z)
    decreases z - y
  {
    if y + 1 < z { YearLength(y + 1); YearsOrdered(y + 1, z); }
  }

  lemma WithinYear(d: Date)
    requires IsDate(d)
    ensures DayFromYear(d.year) <= DayNumber(d) < DayFromYear(d.year + 1)
  {
    MonthsOrdered(d.year, d.month, 13);
    YearLength(d.year);
    if d.month > 1 { MonthsOrdered(d.year, 1, d.month); }
  }

  /** Day numbers order dates as the calendar does. */
  lemma DayNumberOrdered(a: Date, b: Date)
    requires IsDate(a) && IsDate(b)
    ensures DayNumber(a) < DayNumber(b) <==> Earlier(a, b)
    ensures DayNumber(a) == DayNumber(b) <==> a == b
  {
    EarlierIsLess(a, b);
    EarlierIsLess(b, a);
  }

  lemma EarlierYearIsLess(a: Date, b: Date)
    requires IsDate(a) && IsDate(b) && a.year < b.year
    ensures DayNumber(a) < DayNumber(b)
  {
    WithinYear(a);
    WithinYear(b);
    YearsOrdered(a.year, b.year);
  }

  lemma EarlierIsLess(a: Date, b: Date)
    requires IsDate(a) && IsDate(b)
    ensures Earlier(a, b) ==> DayNumber(a) < DayNumber(b)
  {
    if a.year < b.year {
      EarlierYearIsLess(a, b);
    } else if a.year == b.year && a.month < b.month {
      MonthsOrdered(a.year, a.month, b.month);
    }
  }

  /** Date to day number and back are inverse, across months, leap years and centuries. */
  lemma DateRoundTrip(d: Date)
    requires IsDate(d)
    ensures DateOf(DayNumber(d)) == d
  {
    DayNumberOrdered(DateOf(DayNumber(d)), d);
  }

  lemma PreviousIsOneLess(d: Date)
    requires IsDate(d)
    ensures IsDate(PreviousDay(d)) && DayNumber(PreviousDay(d)) == DayNumber(d) - 1
  {
    if d.day == 1 && d.month == 1 {
      YearLength(d.year - 1);
      assert DaysBeforeMonth(d.year - 1, 13) == DaysBeforeMonth(d.year - 1, 12) + 31;
    }
  }

  // --- labels -----------------------------------------------------------------------

  function Digit(n: int): char
    requires 0 <= n < 10
  {
    '0' + n as char
  }

  function Pad2(n: int): string
    requires 0 <= n < 100
  {
    [Digit(n / 10), Digit(n % 10)]
  }

  function Pad4(n: int): string
    requires 0 <= n < 10_000
  {
    Pad2(n / 100) + Pad2(n % 100)
  }

  function Pad6(n: int): string
    requires 0 <= n < 1_000_000
  {
    Pad2(n / 10_000) + Pad4(n % 10_000)
  }

  /** The years a time value can reach. */
  predicate InEngineRange(d: Date) {
    IsDate(d) && -1_000_000 < d.year < 1_000_000
  }

  /** The date part of toISOString: four digits of year, or a sign and six. */
  function IsoDate(d: Date): string
    requires InEngineRange(d)
  {
    (if 0 <= d.year < 10_000 then Pad4(d.year)
     else if d.year < 0 then "-" + Pad6(-d.year)
     else "+" + Pad6(d.year))
    + "-" + Pad2(d.month) + "-" + Pad2(d.day)
  }

  /** A label: a calendar date with a year of four digits. */
  predicate HasLabel(d: Date) {
    IsDate(d) && 0 <= d.year < 10_000
  }

  function Label(d: Date): string
    requires HasLabel(d)
  {
    IsoDate(d)
  }

  ghost predicate IsLabel(s: string) {
    exists d :: HasLabel(d) && Label(d) == s
  }

  function DigitValue(c: char): int { c as int - '0' as int }

  function Number2(s: string): int
    requires |s| == 2
  {
    DigitValue(s[0]) * 10 + DigitValue(s[1])
  }

  /** A label read back. */
  function ParseLabel(s: string): Date
    requires |s| == 10
  {
    Date(Number2(s[0..2]) * 100 + Number2(s[2..4]), Number2(s[5..7]), Number2(s[8..10]))
  }

  lemma Pad2RoundTrip(n: int)
    requires 0 <= n < 100
    ensures |Pad2(n)| == 2 && Number2(Pad2(n)) == n
  {
  }

  lemma LabelRoundTrip(d: Date)
    requires HasLabel(d)
    ensures |Label(d)| == 10 && ParseLabel(Label(d)) == d
    ensures forall i :: 0 <= i < 10 ==> if i == 4 || i == 7 then Label(d)[i] == '-' else '0' <= Label(d)[i] <= '9'
  {
    Pad2RoundTrip(d.year / 100);
    Pad2RoundTrip(d.year % 100);
    Pad2RoundTrip(d.month);
    Pad2RoundTrip(d.day);
    var s := Label(d);
    assert s[0..2] == Pad2(d.year / 100) && s[2..4] == Pad2(d.year % 100);
    assert s[5..7] == Pad2(d.month) && s[8..10] == Pad2(d.day);
  }

  // --- dayKeys ----------------------------------------------------------------------

  /** The first day a time value can name; before it, toISOString throws. */
  const FIRST_TIME := -8_640_000_000_000_000

  lemma EngineYears(n: int)
    requires -100_000_000 <= n <= 100_000_000
    ensures InEngineRange(DateOf(n))
  {
    WithinYear(DateOf(n));
    if DateOf(n).year >= 1_000_000 { YearsOrdered(999_999, DateOf(n).year); }
    if DateOf(n).year <= -1_000_000 { YearsOrdered(DateOf(n).year, -999_998); }
  }

  /** One label: a time value turned into a date and cut to ten characters. */
  function KeyAt(time: int): string
    requires FIRST_TIME <= time <= -FIRST_TIME
  {
    var n := DayOf(time);
    EngineYears(n);
    var text := IsoDate(DateOf(n)) + "T";
    if |text| < 10 then text else text[..10]
  }

  /** The midnights of the window, oldest first; a negative count asks for none. */
  function Midnights(end: int, count: int): (r: seq<int>)
    ensures |r| == if count < 0 then 0 else count
    ensures forall i :: 0 <= i < |r| ==> r[i] == end - Ms(count - 1 - i)
  {
    seq(if count < 0 then 0 else count, i requires 0 <= i < count => end - Ms(count - 1 - i))
  }

  function KeysOf(times: seq<int>, key: int --> string): (r: seq<string>)
    requires forall i :: 0 <= i < |times| ==> key.requires(times[i])
    ensures |r| == |times| && forall i :: 0 <= i < |r| ==> r[i] == key(times[i])
  {
    if times == [] then [] else [key(times[0])] + KeysOf(times[1..], key)
  }

  /** A way of writing every time value the engine has. */
  ghost predicate IsTimeKey(key: int --> string) {
    forall t :: FIRST_TIME <= t <= -FIRST_TIME ==> key.requires(t)
  }

  /** The labels of a window of midnights, or nothing when the engine throws on one. */
  function KeysEndingAt(end: int, count: int, key: int --> string): Option<seq<string>>
    requires end <= -FIRST_TIME && IsTimeKey(key)
  {
    if count > 0 && end - Ms(count - 1) < FIRST_TIME then None
    else Some(KeysOf(Midnights(end, count), key))
  }

  function DayKeys(lastDay: string, count: int): Option<seq<string>>
    requires IsLabel(lastDay)
  {
    EndInRange(lastDay);
    KeysEndingAt(Ms(DayNumber(ParseLabel(lastDay))), count, KeyAt)
  }

  lemma LabelLength(s: string)
    requires IsLabel(s)
    ensures |s| == 10 && HasLabel(ParseLabel(s)) && Label(ParseLabel(s)) == s
  {
    var d :| HasLabel(d) && Label(d) == s;
    LabelRoundTrip(d);
  }

  lemma EndInRange(s: string)
    requires IsLabel(s)
    ensures |s| == 10 && HasLabel(ParseLabel(s)) && DayNumber(ParseLabel(s)) < 100_000_000
  {
    LabelLength(s);
    WithinYear(ParseLabel(s));
    YearsOrdered(ParseLabel(s).year, 10_000);
  }

  /** The first label of a window, as a day number. */
  function FirstDay(last: Date, count: nat): int
    requires IsDate(last)
  {
    DayNumber(last) - (count - 1)
  }

  lemma {:induction false} WindowDays(last: Date, count: nat, i: nat)
    requires IsDate(last) && i < count
    ensures IsDate(Window(last, count)[i]) && DayNumber(Window(last, count)[i]) == FirstDay(last, count) + i
    decreases count
  {
    if i < count - 1 {
      PreviousIsOneLess(last);
      WindowDays(PreviousDay(last), count - 1, i);
    }
  }

  /** A date is written as its label, or as no label at all when its year is negative. */
  ghost predicate IsWritten(key: int --> string, d: Date)
    requires IsDate(d) && key.requires(Ms(DayNumber(d)))
  {
    && (HasLabel(d) ==> key(Ms(DayNumber(d))) == Label(d))
    && (d.year < 0 ==> !IsLabel(key(Ms(DayNumber(d)))))
  }

  ghost predicate WritesDates(key: int --> string) {
    && IsTimeKey(key)
    && forall d :: IsDate(d) && -100_000_000 <= DayNumber(d) <= 100_000_000 ==> IsWritten(key, d)
  }

  lemma SignIsNoLabel(s: string)
    requires s != "" && s[0] == '-'
    ensures !IsLabel(s)
  {
    if e :| HasLabel(e) && Label(e) == s { LabelRoundTrip(e); }
  }

  lemma KeyIsDate(d: Date)
    requires IsDate(d) && -100_000_000 <= DayNumber(d) <= 100_000_000
    ensures IsWritten(KeyAt, d)
  {
    var n := DayNumber(d);
    EngineYears(n);
    DateRoundTrip(d);
    assert DayOf(Ms(n)) == n;
    var text := IsoDate(d) + "T";
    if HasLabel(d) {
      LabelRoundTrip(d);
      assert text[..10] == Label(d);
    } else if d.year < 0 {
      assert text[0] == '-';
      SignIsNoLabel(KeyAt(Ms(n)));
    }
  }

  /** The engine's text of a midnight, cut to ten characters, is the label of its date. */
  lemma EngineWritesDates()
    ensures WritesDates(KeyAt)
  {
    forall d | IsDate(d) && -100_000_000 <= DayNumber(d) <= 100_000_000 ensures IsWritten(KeyAt, d) {
      KeyIsDate(d);
    }
  }

  lemma StepsBack(end: int, count: int, i: int)
    ensures Ms(end) - Ms(count - 1 - i) == Ms(end - (count - 1) + i)
    ensures Ms(end) - Ms(count - 1) < FIRST_TIME <==> end - (count - 1) < -100_000_000
  {
  }

  lemma KeysAreDays(end: int, count: nat, i: nat, key: int --> string)
    requires end <= 100_000_000 && i < count && end - (count - 1) >= -100_000_000 && IsTimeKey(key)
    ensures KeysEndingAt(Ms(end), count, key).Some? && |KeysEndingAt(Ms(end), count, key).value| == count
    ensures KeysEndingAt(Ms(end), count, key).value[i] == key(Ms(end - (count - 1) + i))
  {
    StepsBack(end, count, i);
    assert Midnights(Ms(end), count)[i] == Ms(end - (count - 1) + i);
  }

  /** The source's labels, reduced to day numbers. */
  lemma DayKeysFromLabel(last: Date, count: int)
    requires HasLabel(last)
    ensures IsLabel(Label(last)) && DayNumber(last) < 100_000_000
    ensures DayKeys(Label(last), count) == KeysEndingAt(Ms(DayNumber(last)), count, KeyAt)
  {
    LabelRoundTrip(last);
    EndInRange(Label(last));
  }

  lemma YearBound(d: Date, y: int)
    requires IsDate(d)
    ensures d.year >= y <==> DayNumber(d) >= DayFromYear(y)
  {
    WithinYear(d);
    if d.year < y { YearsOrdered(d.year, y); }
    if d.year > y { YearLength(y); YearsOrdered(y, d.year); }
  }

  lemma InFourDigitYears(d: Date, last: Date)
    requires IsDate(d) && HasLabel(last) && DayNumber(d) <= DayNumber(last)
    ensures HasLabel(d) <==> DayFromYear(0) <= DayNumber(d)
    ensures HasLabel(d) <==> d.year >= 0
  {
    YearBound(d, 0);
    YearBound(d, 10_000);
    YearBound(last, 10_000);
  }

  /** Every day of the window is written as it should be, whatever the engine's text is. */
  lemma WindowWritten(last: Date, count: nat, i: nat, key: int --> string)
    requires HasLabel(last) && DayNumber(last) < 100_000_000 && WritesDates(key) && i < count
    requires FirstDay(last, count) >= -100_000_000
    ensures var keys, d := KeysEndingAt(Ms(DayNumber(last)), count, key), Window(last, count)[i];
            && keys.Some? && |keys.value| == count && IsDate(d)
            && (if d.year < 0 then !IsLabel(keys.value[i]) else HasLabel(d) && keys.value[i] == Label(d))
            && (d.year < 0 <==> FirstDay(last, count) + i < DayFromYear(0))
  {
    var d := Window(last, count)[i];
    WindowDays(last, count, i);
    KeysAreDays(DayNumber(last), count, i, key);
    InFourDigitYears(d, last);
    assert IsWritten(key, d);
  }

  /**
   * For every label and every count whose window stays within the four-digit
   * years, the source's millisecond arithmetic gives exactly the calendar window:
   * `count` consecutive days, oldest first, ending on the given one.
   */
  lemma DayKeysAreTheWindow(last: Date, count: nat)
    requires HasLabel(last)
    requires count > 0 ==> FirstDay(last, count) >= DayFromYear(0)
    ensures DayKeys(Label(last), count).Some?
    ensures var keys := DayKeys(Label(last), count).value;
            && |keys| == count
            && forall i :: 0 <= i < count ==>
                 HasLabel(Window(last, count)[i]) && keys[i] == Label(Window(last, count)[i])
  {
    DayKeysFromLabel(last, count);
    EngineWritesDates();
    if count > 0 { WindowWritten(last, count, 0, KeyAt); }
    forall i | 0 <= i < count
      ensures HasLabel(Window(last, count)[i])
      ensures DayKeys(Label(last), count).value[i] == Label(Window(last, count)[i])
    {
      WindowWritten(last, count, i, KeyAt);
    }
  }

  /** The labels of a window are strictly increasing days, each the day before the next, and so distinct. */
  lemma WindowIsConsecutive(last: Date, count: nat)
    requires IsDate(last)
    ensures var w := Window(last, count);
            && (forall i :: 0 <= i < count ==> IsDate(w[i]))
            && (forall i, j :: 0 <= i < j < count ==> Earlier(w[i], w[j]) && w[i] != w[j])
            && (forall i :: 0 < i < count ==> w[i - 1] == PreviousDay(w[i]))
            && (count > 0 ==> w[count - 1] == last)
  {
    var w := Window(last, count);
    forall i | 0 <= i < count ensures IsDate(w[i]) && DayNumber(w[i]) == FirstDay(last, count) + i {
      WindowDays(last, count, i);
    }
    forall i, j | 0 <= i < j < count ensures Earlier(w[i], w[j]) && w[i] != w[j] {
      DayNumberOrdered(w[i], w[j]);
    }
    forall i | 0 < i < count ensures w[i - 1] == PreviousDay(w[i]) {
      PreviousIsOneLess(w[i]);
      DayNumberOrdered(w[i - 1], PreviousDay(w[i]));
    }
  }

  ghost predicate AreLabels(keys: seq<string>) {
    forall i :: 0 <= i < |keys| ==> IsLabel(keys[i])
  }

  /**
   * Exactly when the answer is usable: when it is not an error, it has one label a
   * day, and every one is a real calendar label if and only if the window does not
   * start before the year 0. Before it the engine writes a sign and six digits of year.
   */
  lemma DayKeysAreLabels(last: Date, count: nat)
    requires HasLabel(last) && count > 0 && DayKeys(Label(last), count).Some?
    ensures |DayKeys(Label(last), count).value| == count
    ensures AreLabels(DayKeys(Label(last), count).value) <==> FirstDay(last, count) >= DayFromYear(0)
  {
    DayKeysFromLabel(last, count);
    EngineWritesDates();
    StepsBack(DayNumber(last), count, 0);
    var keys := DayKeys(Label(last), count).value;
    WindowWritten(last, count, 0, KeyAt);
    forall i | 0 <= i < count && FirstDay(last, count) >= DayFromYear(0) ensures IsLabel(keys[i]) {
      WindowWritten(last, count, i, KeyAt);
    }
  }

  /** Two days ending on the first of the year 0: the first of them is no label. */
  lemma DayBeforeYearZero()
    ensures DayKeys(Label(Date(0, 1, 1)), 2).Some? && !AreLabels(DayKeys(Label(Date(0, 1, 1)), 2).value)
  {
    var last := Date(0, 1, 1);
    DayKeysFromLabel(last, 2);
    StepsBack(DayNumber(last), 2, 0);
    assert DayKeys(Label(last), 2).Some?;
    DayKeysAreLabels(last, 2);
  }
}
