/** Calendar dates in the form YYYY-MM-DD and their day numbers. */
module Calendar {
  import opened Numbers

  datatype Date = Date(y: int, m: int, d: int)

  predicate Leap(y: int) {
    y % 4 == 0 && (y % 100 != 0 || y % 400 == 0)
  }

  function MonthLength(y: int, m: int): int {
    if m == 2 then (if Leap(y) then 29 else 28)
    else if m == 4 || m == 6 || m == 9 || m == 11 then 30
    else 31
  }

  predicate Valid(t: Date) {
    0 <= t.y && 1 <= t.m <= 12 && 1 <= t.d <= MonthLength(t.y, t.m)
  }

  /** Days in the years 0 to y - 1; the year 0 is a leap year. */
  function DaysBeforeYear(y: int): int {
    365 * y + (y + 3) / 4 - (y + 99) / 100 + (y + 399) / 400
  }

  function DaysBeforeMonth(y: int, m: int): int {
    var common := if m == 1 then 0 else if m == 2 then 31 else if m == 3 then 59 else if m == 4 then 90
      else if m == 5 then 120 else if m == 6 then 151 else if m == 7 then 181 else if m == 8 then 212
      else if m == 9 then 243 else if m == 10 then 273 else if m == 11 then 304 else 334;
    if m > 2 && Leap(y) then common + 1 else common
  }

  /** Days since 1970-01-01. */
  function Days(t: Date): int {
    DaysBeforeYear(t.y) + DaysBeforeMonth(t.y, t.m) + t.d - 1 - 719528
  }

  /** The day after. */
  function NextDay(t: Date): Date {
    if t.d < MonthLength(t.y, t.m) then t.(d := t.d + 1)
    else if t.m < 12 then Date(t.y, t.m + 1, 1)
    else Date(t.y + 1, 1, 1)
  }

  lemma FourthYear(y: int)
    ensures (y + 4) / 4 - (y + 3) / 4 == if y % 4 == 0 then 1 else 0
  {
  }

  lemma HundredthYear(y: int)
    ensures (y + 100) / 100 - (y + 99) / 100 == if y % 100 == 0 then 1 else 0
  {
  }

  lemma FourHundredthYear(y: int)
    ensures (y + 400) / 400 - (y + 399) / 400 == if y % 400 == 0 then 1 else 0
  {
  }

  lemma CenturyIsFourth(y: int)
    requires y % 100 == 0
    ensures y % 4 == 0
  {
    assert y == 4 * (25 * (y / 100));
  }

  lemma FourHundredthIsCentury(y: int)
    requires y % 400 == 0
    ensures y % 100 == 0
  {
    assert y == 100 * (4 * (y / 400));
  }

  lemma YearLength(y: int)
    ensures DaysBeforeYear(y + 1) - DaysBeforeYear(y) == if Leap(y) then 366 else 365
  {
    FourthYear(y);
    HundredthYear(y);
    FourHundredthYear(y);
    if y % 400 == 0 { FourHundredthIsCentury(y); }
    if y % 100 == 0 { CenturyIsFourth(y); }
  }

  /** The day number counts days: it is 0 at the epoch and grows by one from each day to the next. */
  lemma DaysCount(t: Date)
    requires Valid(t)
    ensures Days(Date(1970, 1, 1)) == 0
    ensures Days(NextDay(t)) == Days(t) + 1
  {
    YearLength(t.y);
  }

  /** Chronological order, by year, then month, then day. */
  predicate Before(a: Date, b: Date) {
    a.y < b.y || (a.y == b.y && (a.m < b.m || (a.m == b.m && a.d < b.d)))
  }

  lemma {:induction false} YearsApart(y: int, y': int)
    requires y < y'
    ensures DaysBeforeYear(y') >= DaysBeforeYear(y) + (if Leap(y) then 366 else 365)
    decreases y' - y
  {
    YearLength(y);
    if y + 1 < y' { YearsApart(y + 1, y'); }
  }

  lemma BeforeIsFewerDays(a: Date, b: Date)
    requires Valid(a) && Valid(b) && Before(a, b)
    ensures Days(a) < Days(b)
  {
    if a.y < b.y { YearsApart(a.y, b.y); }
  }

  lemma DaysOrder(a: Date, b: Date)
    requires Valid(a) && Valid(b)
    ensures Days(a) < Days(b) <==> Before(a, b)
    ensures Days(a) == Days(b) <==> a == b
  {
    if Before(a, b) {
      BeforeIsFewerDays(a, b);
    } else if Before(b, a) {
      BeforeIsFewerDays(b, a);
    }
  }

  // ----- Text form -----

  predicate DateLike(v: string)
    ensures DateLike(v) ==> |v| == 10 && AllDigits(v[..4]) && AllDigits(v[5..7]) && AllDigits(v[8..10])
  {
    |v| == 10 && DigitsOnly(v[..4]) && v[4] == '-' && DigitsOnly(v[5..7]) && v[7] == '-' && DigitsOnly(v[8..10])
  }

  function Fields(v: string): Date
    requires DateLike(v)
  {
    Date(Val(v[..4]), Val(v[5..7]), Val(v[8..10]))
  }

  lemma DateParts(v: string)
    requires DateLike(v)
    ensures v == v[..4] + ("-" + (v[5..7] + ("-" + v[8..10])))
  {
  }

  /** Strings with the same separators in the same places compare field by field. */
  lemma LessByFields(y: string, m: string, d: string, y': string, m': string, d': string)
    requires |y| == |y'| && |m| == |m'|
    ensures Less(y + ("-" + (m + ("-" + d))), y' + ("-" + (m' + ("-" + d'))))
       <==> Less(y, y') || (y == y' && (Less(m, m') || (m == m' && Less(d, d'))))
  {
    hide Less;
    LessConcat(y, "-" + (m + ("-" + d)), y', "-" + (m' + ("-" + d')));
    LessConcat("-", m + ("-" + d), "-", m' + ("-" + d'));
    LessConcat(m, "-" + d, m', "-" + d');
    LessConcat("-", d, "-", d');
    NotLess("-");
  }

  lemma NotLess(s: string)
    ensures !Less(s, s)
  {
  }

  /** The order of date strings is the order of dates. */
  lemma TextOrder(a: string, b: string)
    requires DateLike(a) && DateLike(b)
    ensures Less(a, b) <==> Before(Fields(a), Fields(b))
  {
    hide Less, Val;
    ValLess(a[..4], b[..4]);
    ValLess(a[5..7], b[5..7]);
    ValLess(a[8..10], b[8..10]);
    DateParts(a);
    DateParts(b);
    LessByFields(a[..4], a[5..7], a[8..10], b[..4], b[5..7], b[8..10]);
  }
}
