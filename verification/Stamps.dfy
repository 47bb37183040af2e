/** Fixed-width UTC timestamp strings (section 5.1 of RFC 3339) and the instants they
    name. Rollup rows end in `+00:00`, prune cutoffs in `Z`; both are compared as text. */
module Stamps {
  import opened SortedNames

  datatype Civil = Civil(year: nat, month: nat, day: nat, hour: nat, minute: nat, second: nat)

  predicate IsLeap(y: nat) {
    y % 4 == 0 && (y % 100 != 0 || y % 400 == 0)
  }

  function DaysIn(y: nat, m: nat): nat {
    if m == 2 then (if IsLeap(y) then 29 else 28)
    else if m == 4 || m == 6 || m == 9 || m == 11 then 30 else 31
  }

  predicate Valid(c: Civil) {
    && 1000 <= c.year <= 9999 && 1 <= c.month <= 12 && 1 <= c.day <= DaysIn(c.year, c.month)
    && c.hour < 24 && c.minute < 60 && c.second < 60
  }

  function Digit(n: nat): char {
    ('0' as int + n % 10) as char
  }

  function Two(n: nat): string { [Digit(n / 10), Digit(n)] }

  function Four(n: nat): string { Two(n / 100) + Two(n % 100) }

  /** YYYY-MM-DDTHH:MM:SS */
  function Text(c: Civil): string {
    Four(c.year) + ("-" + (Two(c.month) + ("-" + (Two(c.day) + ("T" +
      (Two(c.hour) + (":" + (Two(c.minute) + (":" + Two(c.second))))))))))
  }

  function RowStamp(c: Civil): string { Text(c) + "+00:00" }

  function CutoffStamp(c: Civil): string { Text(c) + "Z" }

  // ---------- Instants ----------

  function DaysBeforeYear(y: nat): nat {
    if y == 0 then 0 else DaysBeforeYear(y - 1) + if IsLeap(y - 1) then 366 else 365
  }

  function DaysBeforeMonth(y: nat, m: nat): nat {
    if m <= 1 then 0 else DaysBeforeMonth(y, m - 1) + DaysIn(y, m - 1)
  }

  /** Seconds since the start of year 0. */
  function Instant(c: Civil): int {
    (((DaysBeforeYear(c.year) + DaysBeforeMonth(c.year, c.month) + c.day) * 24 + c.hour) * 60 + c.minute) * 60 + c.second
  }

  /** The Gregorian calendar: leap years, and 30 days in four months. */
  lemma CalendarIs(y: nat)
    ensures IsLeap(400 * y) && !IsLeap(400 * y + 100) && IsLeap(400 * y + 104) && !IsLeap(400 * y + 103)
    ensures DaysIn(y, 2) == (if IsLeap(y) then 29 else 28)
    ensures forall m :: m in {4, 6, 9, 11} ==> DaysIn(y, m) == 30
    ensures forall m :: m in {1, 3, 5, 7, 8, 10, 12} ==> DaysIn(y, m) == 31
  {
  }

  /** The next second on the clock and the calendar. */
  function NextSecond(c: Civil): Civil {
    if c.second < 59 then c.(second := c.second + 1)
    else if c.minute < 59 then c.(minute := c.minute + 1, second := 0)
    else if c.hour < 23 then c.(hour := c.hour + 1, minute := 0, second := 0)
    else if c.day < DaysIn(c.year, c.month) then Civil(c.year, c.month, c.day + 1, 0, 0, 0)
    else if c.month < 12 then Civil(c.year, c.month + 1, 1, 0, 0, 0)
    else Civil(c.year + 1, 1, 1, 0, 0, 0)
  }

  /** Instants count the seconds one by one. */
  lemma InstantsCountSeconds(c: Civil)
    requires Valid(c)
    ensures Instant(NextSecond(c)) == Instant(c) + 1
  {
    MonthStep(c.year, c.month);
    YearLength(c.year);
    assert DaysBeforeMonth(c.year + 1, 1) == 0;
  }

  /** How the stamps are written: two digits a number, four the year. */
  lemma NumbersAreWritten(n: nat)
    requires n < 10_000
    ensures n < 100 ==> Two(n) == ["0123456789"[n / 10], "0123456789"[n % 10]]
    ensures Four(n) == Two(n / 100) + Two(n % 100)
  {
  }

  lemma StampsAreWritten(c: Civil)
    ensures |Text(c)| == 19 && Text(c)[..4] == Four(c.year) && Text(c)[4] == '-' && Text(c)[5..7] == Two(c.month) && Text(c)[7] == '-'
    ensures Text(c)[8..10] == Two(c.day) && Text(c)[10] == 'T' && Text(c)[11..13] == Two(c.hour) && Text(c)[13] == ':'
    ensures Text(c)[14..16] == Two(c.minute) && Text(c)[16] == ':' && Text(c)[17..] == Two(c.second)
    ensures RowStamp(c) == Text(c) + "+00:00" && CutoffStamp(c) == Text(c) + "Z"
  {
  }

  function DayNumber(c: Civil): nat {
    DaysBeforeYear(c.year) + DaysBeforeMonth(c.year, c.month) + c.day
  }

  predicate EarlierDate(a: Civil, b: Civil) {
    a.year < b.year || (a.year == b.year && (a.month < b.month || (a.month == b.month && a.day < b.day)))
  }

  predicate SameDate(a: Civil, b: Civil) {
    a.year == b.year && a.month == b.month && a.day == b.day
  }

  predicate EarlierTime(a: Civil, b: Civil) {
    a.hour < b.hour || (a.hour == b.hour && (a.minute < b.minute || (a.minute == b.minute && a.second < b.second)))
  }

  lemma {:induction false} MonthsAddUp(y: nat, m: nat, m': nat)
    requires 1 <= m < m' <= 13
    ensures DaysBeforeMonth(y, m) + DaysIn(y, m) <= DaysBeforeMonth(y, m')
    decreases m'
  {
    if m < m' - 1 { MonthsAddUp(y, m, m' - 1); }
  }

  lemma YearLength(y: nat)
    ensures DaysBeforeMonth(y, 13) == if IsLeap(y) then 366 else 365
  {
    MonthStep(y, 1); MonthStep(y, 2); MonthStep(y, 3); MonthStep(y, 4); MonthStep(y, 5); MonthStep(y, 6);
    MonthStep(y, 7); MonthStep(y, 8); MonthStep(y, 9); MonthStep(y, 10); MonthStep(y, 11); MonthStep(y, 12);
    assert DaysBeforeMonth(y, 1) == 0;
  }

  lemma MonthStep(y: nat, m: nat)
    requires 1 <= m
    ensures DaysBeforeMonth(y, m + 1) == DaysBeforeMonth(y, m) + DaysIn(y, m)
  {
  }

  lemma {:induction false} YearsAddUp(y: nat, y': nat)
    requires y < y'
    ensures DaysBeforeYear(y) + (if IsLeap(y) then 366 else 365) <= DaysBeforeYear(y')
    decreases y'
  {
    if y < y' - 1 { YearsAddUp(y, y' - 1); }
  }

  lemma EarlierDateHasSmallerNumber(a: Civil, b: Civil)
    requires Valid(a) && Valid(b) && EarlierDate(a, b)
    ensures DayNumber(a) < DayNumber(b)
  {
    if a.year < b.year {
      YearsAddUp(a.year, b.year);
      YearLength(a.year);
      MonthsAddUp(a.year, a.month, 13);
    } else if a.month < b.month {
      MonthsAddUp(a.year, a.month, b.month);
    }
  }

  lemma EarlierMeansEarlier(a: Civil, b: Civil)
    requires Valid(a) && Valid(b)
    ensures Instant(a) < Instant(b) <==> EarlierDate(a, b) || (SameDate(a, b) && EarlierTime(a, b))
    ensures Instant(a) == Instant(b) <==> a == b
  {
    if EarlierDate(a, b) { EarlierDateHasSmallerNumber(a, b); }
    if EarlierDate(b, a) { EarlierDateHasSmallerNumber(b, a); }
    assert EarlierDate(a, b) || EarlierDate(b, a) || SameDate(a, b);
  }

  // ---------- Text order ----------

  /** Blocks of equal width compare first; ties go to the rest. */
  lemma {:induction false} BlockOrder(p: string, q: string, a: string, b: string)
    requires |p| == |q|
    ensures Less(p + a, q + b) <==> Less(p, q) || (p == q && Less(a, b))
  {
    if p == "" {
      assert p + a == a && q + b == b;
    } else {
      assert (p + a)[1..] == p[1..] + a && (q + b)[1..] == q[1..] + b;
      assert p == [p[0]] + p[1..] && q == [q[0]] + q[1..];
      BlockOrder(p[1..], q[1..], a, b);
    }
  }

  lemma SameHead(h: string, a: string, b: string)
    ensures Less(h + a, h + b) <==> Less(a, b)
  {
    BlockOrder(h, h, a, b);
    LessIsStrict(h);
  }

  lemma TwoOrder(n: nat, m: nat)
    requires n < 100 && m < 100
    ensures Less(Two(n), Two(m)) <==> n < m
    ensures Two(n) == Two(m) <==> n == m
  {
    BlockOrder([Digit(n / 10)], [Digit(m / 10)], [Digit(n)], [Digit(m)]);
    assert Two(n)[0] == Digit(n / 10) && Two(n)[1] == Digit(n) && Two(m)[0] == Digit(m / 10) && Two(m)[1] == Digit(m);
    assert Less([Digit(n / 10)], [Digit(m / 10)]) <==> Digit(n / 10) < Digit(m / 10);
    assert Less([Digit(n)], [Digit(m)]) <==> Digit(n) < Digit(m);
    assert [Digit(n / 10)] + [Digit(n)] == Two(n) && [Digit(m / 10)] + [Digit(m)] == Two(m);
    assert n == 10 * (n / 10) + n % 10 && m == 10 * (m / 10) + m % 10;
  }

  lemma FourOrder(n: nat, m: nat)
    requires n < 10000 && m < 10000
    ensures Less(Four(n), Four(m)) <==> n < m
    ensures Four(n) == Four(m) <==> n == m
  {
    BlockOrder(Two(n / 100), Two(m / 100), Two(n % 100), Two(m % 100));
    TwoOrder(n / 100, m / 100);
    TwoOrder(n % 100, m % 100);
    if Four(n) == Four(m) {
      assert Two(n / 100) == Four(n)[..2] && Two(m / 100) == Four(m)[..2];
      assert Two(n % 100) == Four(n)[2..] && Two(m % 100) == Four(m)[2..];
    }
  }

  function TimeText(c: Civil, tail: string): string {
    Two(c.hour) + (":" + (Two(c.minute) + (":" + (Two(c.second) + tail))))
  }

  function DateText(c: Civil, tail: string): string {
    Four(c.year) + ("-" + (Two(c.month) + ("-" + (Two(c.day) + ("T" + tail)))))
  }

  lemma TextSplits(c: Civil, tail: string)
    ensures Text(c) + tail == DateText(c, TimeText(c, tail))
  {
  }

  lemma TimeOrder(a: Civil, b: Civil, x: string, y: string)
    requires Valid(a) && Valid(b)
    ensures Less(TimeText(a, x), TimeText(b, y)) <==>
              EarlierTime(a, b) || (a.hour == b.hour && a.minute == b.minute && a.second == b.second && Less(x, y))
  {
    TwoOrder(a.hour, b.hour);
    TwoOrder(a.minute, b.minute);
    TwoOrder(a.second, b.second);
    var a3, b3 := Two(a.second) + x, Two(b.second) + y;
    var a2, b2 := Two(a.minute) + (":" + a3), Two(b.minute) + (":" + b3);
    BlockOrder(Two(a.second), Two(b.second), x, y);
    SameHead(":", a3, b3);
    BlockOrder(Two(a.minute), Two(b.minute), ":" + a3, ":" + b3);
    SameHead(":", a2, b2);
    BlockOrder(Two(a.hour), Two(b.hour), ":" + a2, ":" + b2);
  }

  lemma DateOrder(a: Civil, b: Civil, x: string, y: string)
    requires Valid(a) && Valid(b)
    ensures Less(DateText(a, x), DateText(b, y)) <==> EarlierDate(a, b) || (SameDate(a, b) && Less(x, y))
  {
    FourOrder(a.year, b.year);
    TwoOrder(a.month, b.month);
    TwoOrder(a.day, b.day);
    SameHead("T", x, y);
    var a3, b3 := Two(a.day) + ("T" + x), Two(b.day) + ("T" + y);
    var a2, b2 := Two(a.month) + ("-" + a3), Two(b.month) + ("-" + b3);
    BlockOrder(Two(a.day), Two(b.day), "T" + x, "T" + y);
    SameHead("-", a3, b3);
    BlockOrder(Two(a.month), Two(b.month), "-" + a3, "-" + b3);
    SameHead("-", a2, b2);
    BlockOrder(Four(a.year), Four(b.year), "-" + a2, "-" + b2);
  }

  /** With any suffixes: text order is the order of the instants, and the suffixes decide
      between equal instants. */
  lemma StampOrder(a: Civil, b: Civil, x: string, y: string)
    requires Valid(a) && Valid(b)
    ensures Less(Text(a) + x, Text(b) + y) <==> Instant(a) < Instant(b) || (Instant(a) == Instant(b) && Less(x, y))
  {
    TextSplits(a, x);
    TextSplits(b, y);
    TimeOrder(a, b, x, y);
    DateOrder(a, b, TimeText(a, x), TimeText(b, y));
    EarlierMeansEarlier(a, b);
  }

  /** Row stamps sort as the instants they name. */
  lemma RowOrder(a: Civil, b: Civil)
    requires Valid(a) && Valid(b)
    ensures Less(RowStamp(a), RowStamp(b)) <==> Instant(a) < Instant(b)
    ensures RowStamp(a) == RowStamp(b) <==> Instant(a) == Instant(b)
  {
    StampOrder(a, b, "+00:00", "+00:00");
    StampOrder(b, a, "+00:00", "+00:00");
    LessIsStrict("+00:00");
    LessIsStrict(RowStamp(a));
    EarlierMeansEarlier(a, b);
  }

  /** A row is below a cutoff up to and including the cutoff's own second, because `+`
      sorts before `Z`. */
  lemma CutoffOrder(row: Civil, cutoff: Civil)
    requires Valid(row) && Valid(cutoff)
    ensures Less(RowStamp(row), CutoffStamp(cutoff)) <==> Instant(row) <= Instant(cutoff)
  {
    StampOrder(row, cutoff, "+00:00", "Z");
    assert Less("+00:00", "Z");
  }
}
