/** activity.ts: ISO weeks of local dates. */
module Activity {
  // packages/d1-ui/src/activity.ts, and how many dates fall in each of the last weeks.

  import opened Calendar
  import opened Wrappers

  // ---- weeks ----

  // The Monday on or before a day.
  function Monday(day: int): int {
    day - (day + 3) % 7
  }

  predicate IsMonday(day: int) {
    Weekday(day) == 1
  }

  // Every day lies in exactly one week that starts on a Monday.
  lemma OneWeekEach(day: int, start: int)
    ensures IsMonday(start) && start <= day < start + 7 <==> start == Monday(day)
  {
  }

  function WeekStart(day: int): int {
    var back := (Weekday(day) + 6) % 7;
    NewDate(YearOf(day), MonthOf(day), DateOf(day) - back)
  }

  // The date built from its fields is that Monday, except in years the Date constructor reads as two digits.
  lemma WeekStartIsMonday(day: int)
    ensures WeekStart(day) == Monday(day) <==> !(0 <= YearOf(day) <= 99)
  {
    var y := YearOf(day);
    var back := (Weekday(day) + 6) % 7;
    assert back == (day + 3) % 7;
    if 0 <= y <= 99 {
      TwoDigitYearsMove(day, -back);
    } else {
      FieldsRebuild(day, -back);
    }
  }

  // Clear of the two-digit years.
  predicate Modern(day: int) {
    day >= ModernStart(100) + 6
  }

  function ModernStart(y: int): int {
    DayFromYear(y)
  }

  lemma AfterYear(day: int, y: int)
    requires day >= DayFromYear(y)
    ensures YearOf(day) >= y
  {
    if YearOf(day) + 1 < y {
      YearsOrdered(YearOf(day) + 1, y);
    }
  }

  lemma ModernYears(day: int)
    requires day >= ModernStart(100)
    ensures YearOf(day) >= 100
  {
    AfterYear(day, 100);
  }

  // ---- ISO week numbers ----

  datatype IsoWeek = IsoWeek(year: int, week: int)

  // new Date(d.getFullYear(), d.getMonth(), d.getDate() + k)
  function Moved(day: int, k: int): int {
    NewDate(YearOf(day), MonthOf(day), DateOf(day) + k)
  }

  function IsoWeekOf(day: int): IsoWeek {
    IsoWeekOfThursday(Moved(WeekStart(day), 3))
  }

  function IsoWeekOfThursday(thursday: int): IsoWeek {
    var isoYear := YearOf(thursday);
    var dayOfYear := Moved(thursday, 0) - NewDate(isoYear, 0, 1);
    IsoWeek(isoYear, dayOfYear / 7 + 1)
  }

  // From a day to the first Thursday on or after it.
  function ToThursday(day: int): int {
    (0 - day) % 7
  }

  // The n-th Thursday of a year.
  function NthThursday(y: int, n: int): int {
    DayFromYear(y) + ToThursday(DayFromYear(y)) + 7 * (n - 1)
  }

  lemma NthThursdayIsThursday(y: int, n: int)
    ensures Weekday(NthThursday(y, n)) == 4 && DayFromYear(y) <= NthThursday(y, 1) < DayFromYear(y) + 7
  {
  }

  lemma ThursdayOf(day: int)
    requires Modern(day)
    ensures var w := IsoWeekOf(day);
            var thursday := Monday(day) + 3;
            w.year == YearOf(thursday) && w.week == (thursday - DayFromYear(w.year)) / 7 + 1
  {
    ThisThursday(day);
    ThursdayNumbered(Monday(day) + 3);
  }

  lemma ThisThursday(day: int)
    requires Modern(day)
    ensures Moved(WeekStart(day), 3) == Monday(day) + 3
  {
    ModernYears(day);
    WeekStartIsMonday(day);
    ModernYears(Monday(day));
    FieldsRebuild(Monday(day), 3);
  }

  lemma ThursdayNumbered(thursday: int)
    requires thursday >= ModernStart(100)
    ensures IsoWeekOfThursday(thursday) == IsoWeek(YearOf(thursday), (thursday - DayFromYear(YearOf(thursday))) / 7 + 1)
  {
    ModernYears(thursday);
    FieldsRebuild(thursday, 0);
    FirstOfYear(YearOf(thursday));
  }

  lemma FirstOfYear(y: int)
    requires !(0 <= y <= 99)
    ensures NewDate(y, 0, 1) == DayFromYear(y)
  {
  }

  // Section 2.2.10 of ISO 8601:2004: a week belongs to the year of its Thursday, and week n holds that
  // year's n-th Thursday; so week 1 is the one with the first Thursday.
  lemma WeekOfNthThursday(day: int)
    requires Modern(day)
    ensures var w := IsoWeekOf(day);
            NthThursday(w.year, w.week) == Monday(day) + 3 && w.year == YearOf(Monday(day) + 3) && 1 <= w.week <= 53
    ensures var w := IsoWeekOf(day);
            Weekday(NthThursday(w.year, w.week)) == 4 && DayFromYear(w.year) <= NthThursday(w.year, 1) < DayFromYear(w.year) + 7
  {
    ThursdayOf(day);
    MondayThenThursday(day);
    ThursdayNumber(Monday(day) + 3, IsoWeekOf(day));
    NthThursdayIsThursday(IsoWeekOf(day).year, IsoWeekOf(day).week);
  }

  lemma MondayThenThursday(day: int)
    ensures (Monday(day) + 3) % 7 == 0
  {
  }

  lemma ThursdayNumber(thursday: int, w: IsoWeek)
    requires thursday % 7 == 0 && w.year == YearOf(thursday) && w.week == (thursday - DayFromYear(w.year)) / 7 + 1
    ensures NthThursday(w.year, w.week) == thursday && 1 <= w.week <= 53
  {
    YearLength(w.year);
    CountThursdays(DayFromYear(w.year), thursday);
  }

  lemma CountThursdays(first: int, thursday: int)
    requires thursday % 7 == 0 && first <= thursday < first + 366
    ensures first + ToThursday(first) + 7 * ((thursday - first) / 7) == thursday && 0 <= (thursday - first) / 7 < 53
  {
    var n := thursday - first;
    assert n == 7 * (n / 7) + n % 7;
    assert n % 7 == ToThursday(first);
  }

  // The number identifies the week.
  lemma NumberIdentifiesWeek(a: int, b: int)
    requires Modern(a) && Modern(b)
    ensures IsoWeekOf(a) == IsoWeekOf(b) <==> Monday(a) == Monday(b)
  {
    WeekOfNthThursday(a);
    WeekOfNthThursday(b);
    ThursdayOf(a);
    ThursdayOf(b);
    SameNumberSameThursday(Monday(a) + 3, IsoWeekOf(a), Monday(b) + 3, IsoWeekOf(b));
  }

  lemma SameNumberSameThursday(s: int, v: IsoWeek, t: int, w: IsoWeek)
    requires NthThursday(v.year, v.week) == s && v.year == YearOf(s) && v.week == (s - DayFromYear(v.year)) / 7 + 1
    requires NthThursday(w.year, w.week) == t && w.year == YearOf(t) && w.week == (t - DayFromYear(w.year)) / 7 + 1
    ensures v == w <==> s == t
  {
  }

  // A year has a week 53 exactly when it starts on a Thursday, or is a leap year that starts on a Wednesday.
  lemma LongYears(y: int)
    ensures YearOf(NthThursday(y, 53)) == y <==> Weekday(DayFromYear(y)) == 4 || (IsLeap(y) && Weekday(DayFromYear(y)) == 3)
  {
    var first, days := DayFromYear(y), DaysIn(y);
    YearLength(y);
    SpareDays(first, days);
    LastThursday(y);
    WithinYear(NthThursday(y, 53), y);
  }

  lemma LastThursday(y: int)
    ensures NthThursday(y, 53) == DayFromYear(y) + ToThursday(DayFromYear(y)) + 364 >= DayFromYear(y)
  {
  }

  lemma WithinYear(day: int, y: int)
    requires DayFromYear(y) <= day
    ensures YearOf(day) == y <==> day < DayFromYear(y + 1)
  {
    if day < DayFromYear(y + 1) {
      YearIsUnique(day, y);
    }
  }

  lemma SpareDays(first: int, days: int)
    requires days == 365 || days == 366
    ensures first + ToThursday(first) + 364 < first + days <==> Weekday(first) == 4 || (days == 366 && Weekday(first) == 3)
  {
  }

  // ---- dates as text ----

  function Digit(n: nat): char
    requires n < 10
  {
    "0123456789"[n]
  }

  function Decimal(n: nat): string {
    if n < 10 then [Digit(n)] else Decimal(n / 10) + [Digit(n % 10)]
  }

  function Signed(y: int): string {
    if y < 0 then "-" + Decimal(-y) else Decimal(y)
  }

  // String(n).padStart(2, "0")
  function TwoDigits(n: nat): (s: string)
    requires n < 100
    ensures |s| == 2
  {
    assert n >= 10 ==> Decimal(n / 10) == [Digit(n / 10)];
    if n < 10 then ['0'] + Decimal(n) else Decimal(n)
  }

  function Text(y: int, m: nat, d: nat): string
    requires m < 100 && d < 100
  {
    Signed(y) + "-" + TwoDigits(m) + "-" + TwoDigits(d)
  }

  function Ymd(day: int): string {
    Text(YearOf(day), MonthOf(day) + 1, DateOf(day))
  }

  lemma DigitIsInjective(a: nat, b: nat)
    requires a < 10 && b < 10 && Digit(a) == Digit(b)
    ensures a == b && Digit(a) != '-'
  {
  }

  lemma {:induction false} DecimalIsInjective(a: nat, b: nat)
    requires Decimal(a) == Decimal(b)
    ensures a == b
  {
    DecimalLength(a);
    DecimalLength(b);
    DigitIsInjective(a % 10, b % 10);
    if a >= 10 && b >= 10 {
      assert Decimal(a)[..|Decimal(a)| - 1] == Decimal(a / 10) && Decimal(b)[..|Decimal(b)| - 1] == Decimal(b / 10);
      DecimalIsInjective(a / 10, b / 10);
    }
  }

  lemma {:induction false} DecimalLength(n: nat)
    ensures |Decimal(n)| >= 1 && (|Decimal(n)| == 1 <==> n < 10) && Decimal(n)[0] != '-'
    ensures Decimal(n)[|Decimal(n)| - 1] == Digit(n % 10)
  {
    if n >= 10 {
      DecimalLength(n / 10);
    } else {
      DigitIsInjective(n, n);
    }
  }

  lemma SignedIsInjective(x: int, y: int)
    requires Signed(x) == Signed(y)
    ensures x == y
  {
    if x < 0 && y < 0 {
      assert Signed(x)[1..] == Decimal(-x) && Signed(y)[1..] == Decimal(-y);
      DecimalIsInjective(-x, -y);
    } else if x >= 0 && y >= 0 {
      DecimalIsInjective(x, y);
    } else {
      DecimalLength(if x < 0 then y else x);
    }
  }

  lemma TwoDigitsIsInjective(a: nat, b: nat)
    requires a < 100 && b < 100 && TwoDigits(a) == TwoDigits(b)
    ensures a == b
  {
    TwoDigitsAt(a);
    TwoDigitsAt(b);
    DigitIsInjective(a / 10, b / 10);
    DigitIsInjective(a % 10, b % 10);
  }

  lemma TwoDigitsAt(n: nat)
    requires n < 100
    ensures TwoDigits(n) == [Digit(n / 10), Digit(n % 10)]
  {
    if n >= 10 {
      assert Decimal(n / 10) == [Digit(n / 10)];
    }
  }

  lemma Parts(a: string, b: string, c: string)
    requires |b| == |c| == 2
    ensures var s := a + "-" + b + "-" + c; |s| >= 6 && s[..|s| - 6] == a && s[|s| - 5..|s| - 3] == b && s[|s| - 2..] == c
  {
  }

  lemma TextIsInjective(y: int, m: nat, d: nat, y': int, m': nat, d': nat)
    requires m < 100 && d < 100 && m' < 100 && d' < 100 && Text(y, m, d) == Text(y', m', d')
    ensures y == y' && m == m' && d == d'
  {
    Parts(Signed(y), TwoDigits(m), TwoDigits(d));
    Parts(Signed(y'), TwoDigits(m'), TwoDigits(d'));
    TwoDigitsIsInjective(d, d');
    TwoDigitsIsInjective(m, m');
    SignedIsInjective(y, y');
  }

  // Different days have different texts, so a text finds at most one week.
  lemma YmdIsInjective(a: int, b: int)
    requires Ymd(a) == Ymd(b)
    ensures a == b
  {
    TextIsInjective(YearOf(a), MonthOf(a) + 1, DateOf(a), YearOf(b), MonthOf(b) + 1, DateOf(b));
    FieldsDetermine(a, b);
  }

  // The number a run of digits stands for.
  function NumberIn(s: string): int {
    if s == "" then 0 else 10 * NumberIn(s[..|s| - 1]) + (s[|s| - 1] as int - '0' as int)
  }

  lemma DigitReads(n: nat)
    requires n < 10
    ensures Digit(n) as int - '0' as int == n
  {
  }

  lemma {:induction false} DecimalReads(n: nat)
    ensures NumberIn(Decimal(n)) == n
  {
    var s := Decimal(n);
    DigitReads(n % 10);
    if n >= 10 {
      assert s[..|s| - 1] == Decimal(n / 10);
      DecimalReads(n / 10);
    } else {
      assert s[..0] == "";
    }
  }

  lemma TwoDigitsRead(n: nat)
    requires n < 100
    ensures NumberIn(TwoDigits(n)) == n
  {
    var s := TwoDigits(n);
    TwoDigitsAt(n);
    DigitReads(n / 10);
    DigitReads(n % 10);
    assert s[..1][..0] == "" && NumberIn(s[..1]) == n / 10;
  }

  // Read back, a text gives the year, then the month counted from one, then the day, each after a dash.
  lemma YmdReads(day: int)
    ensures var t := Ymd(day);
            var n := |t|;
            && n >= 7 && t[n - 6] == '-' && t[n - 3] == '-'
            && NumberIn(t[n - 2..]) == DateOf(day)
            && NumberIn(t[n - 5..n - 3]) == MonthOf(day) + 1
            && (YearOf(day) >= 0 ==> NumberIn(t[..n - 6]) == YearOf(day))
            && (YearOf(day) < 0 ==> t[0] == '-' && NumberIn(t[1..n - 6]) == -YearOf(day))
  {
    TextReads(YearOf(day), MonthOf(day) + 1, DateOf(day), Ymd(day));
  }

  lemma TextReads(y: int, m: nat, d: nat, t: string)
    requires m < 100 && d < 100 && t == Text(y, m, d)
    ensures var n := |t|;
            && n >= 7 && t[n - 6] == '-' && t[n - 3] == '-'
            && NumberIn(t[n - 2..]) == d && NumberIn(t[n - 5..n - 3]) == m
            && (y >= 0 ==> NumberIn(t[..n - 6]) == y) && (y < 0 ==> t[0] == '-' && NumberIn(t[1..n - 6]) == -y)
  {
    TwoDigitsRead(m);
    TwoDigitsRead(d);
    SignedReads(y);
    Pieces(Signed(y), TwoDigits(m), TwoDigits(d), t);
  }

  lemma SignedReads(y: int)
    ensures |Signed(y)| >= 1
    ensures y >= 0 ==> NumberIn(Signed(y)) == y
    ensures y < 0 ==> Signed(y)[0] == '-' && NumberIn(Signed(y)[1..]) == -y
  {
    DecimalLength(if y < 0 then -y else y);
    DecimalReads(if y < 0 then -y else y);
    assert y < 0 ==> Signed(y)[1..] == Decimal(-y);
  }

  lemma Pieces(a: string, b: string, c: string, t: string)
    requires |a| >= 1 && |b| == |c| == 2 && t == a + "-" + b + "-" + c
    ensures var n := |t|;
            && n >= 7 && t[n - 6] == '-' && t[n - 3] == '-' && t[n - 2..] == c && t[n - 5..n - 3] == b
            && t[..n - 6] == a && t[0] == a[0] && t[1..n - 6] == a[1..]
  {
  }

  // ---- binning ----

  // The Monday i weeks after the oldest of n.
  function Start(now: int, n: nat, i: int): int {
    Monday(now) - 7 * (n - 1 - i)
  }

  lemma StartIsMonday(now: int, n: nat, i: int)
    ensures IsMonday(Start(now, n, i)) && Start(now, n, i + 1) == Start(now, n, i) + 7
  {
  }

  function Starts(now: int, n: nat): (mondays: seq<int>)
    ensures |mondays| == n && forall i :: 0 <= i < n ==> mondays[i] == Start(now, n, i)
  {
    seq(n, i requires 0 <= i < n => Start(now, n, i))
  }

  function Texts(days: seq<int>): (t: seq<string>)
    ensures |t| == |days| && forall i :: 0 <= i < |days| ==> t[i] == Ymd(days[i])
  {
    seq(|days|, i requires 0 <= i < |days| => Ymd(days[i]))
  }

  function Numbers(days: seq<int>): (w: seq<IsoWeek>)
    ensures |w| == |days| && forall i :: 0 <= i < |days| ==> w[i] == IsoWeekOf(days[i])
  {
    seq(|days|, i requires 0 <= i < |days| => IsoWeekOf(days[i]))
  }

  lemma CurrentWeek(now: int)
    requires Modern(now)
    ensures WeekStart(now) == Monday(now) && YearOf(WeekStart(now)) >= 100
  {
    ModernYears(now);
    WeekStartIsMonday(now);
    ModernYears(Monday(now));
  }

  // new Date(current.getFullYear(), current.getMonth(), current.getDate() - 7 * i)
  method WeeksBack(current: int, i: nat) returns (monday: int)
    requires YearOf(current) >= 100
    ensures monday == current - 7 * i
  {
    FieldsRebuild(current, -7 * i);
    monday := NewDate(YearOf(current), MonthOf(current), DateOf(current) - 7 * i);
  }

  method LastWeeks(count: int, now: int) returns (starts: seq<string>, numbers: seq<IsoWeek>)
    requires Modern(now)
    ensures var mondays := Starts(now, if count > 0 then count else 0);
            starts == Texts(mondays) && numbers == Numbers(mondays)
  {
    var n := if count > 0 then count else 0;
    CurrentWeek(now);
    var current := WeekStart(now);
    var mondays: seq<int> := [];
    var i := n;
    while i > 0
      invariant 0 <= i <= n && |mondays| == n - i
      invariant forall k :: 0 <= k < |mondays| ==> mondays[k] == Start(now, n, k)
    {
      i := i - 1;
      var monday := WeeksBack(current, i);
      mondays := mondays + [monday];
    }
    assert mondays == Starts(now, n);
    starts, numbers := Texts(mondays), Numbers(mondays);
  }

  // The week each date falls in; unreadable values have none.
  function WeeksOf(dates: seq<Option<int>>): (w: seq<Option<int>>)
    ensures |w| == |dates|
    ensures forall i :: 0 <= i < |dates| ==> w[i] == if dates[i].Some? then Some(WeekStart(dates[i].value)) else None
  {
    seq(|dates|, i requires 0 <= i < |dates| => if dates[i].Some? then Some(WeekStart(dates[i].value)) else None)
  }

  function Tally(weeks: seq<Option<int>>, start: int): nat {
    if weeks == [] then 0 else Tally(weeks[..|weeks| - 1], start) + if weeks[|weeks| - 1] == Some(start) then 1 else 0
  }

  // How many of the dates fall in the week that starts on a given day.
  function InWeek(dates: seq<Option<int>>, start: int): nat {
    Tally(WeeksOf(dates), start)
  }

  // How many fall between two days.
  function Between(dates: seq<Option<int>>, from: int, to: int): nat {
    if dates == [] then 0
    else
      var d := dates[|dates| - 1];
      Between(dates[..|dates| - 1], from, to) + if d.Some? && from <= d.value < to then 1 else 0
  }

  function Total(counts: seq<nat>): nat {
    if counts == [] then 0 else Total(counts[..|counts| - 1]) + counts[|counts| - 1]
  }

  // index.get(text)
  function IndexOf(starts: seq<string>, text: string): (i: Option<nat>)
    ensures i.Some? ==> i.value < |starts| && starts[i.value] == text
    ensures i.None? ==> text !in starts
  {
    if starts == [] then None
    else if starts[|starts| - 1] == text then Some(|starts| - 1)
    else IndexOf(starts[..|starts| - 1], text)
  }

  lemma IndexFinds(starts: seq<string>, i: nat)
    requires i < |starts| && forall a, b :: 0 <= a < b < |starts| ==> starts[a] != starts[b]
    ensures IndexOf(starts, starts[i]) == Some(i)
  {
    assert starts[i] in starts;
  }

  // Different weeks have different texts.
  lemma TextsDiffer(days: seq<int>)
    requires forall a, b :: 0 <= a < b < |days| ==> days[a] != days[b]
    ensures forall a, b :: 0 <= a < b < |days| ==> Texts(days)[a] != Texts(days)[b]
  {
    forall a, b | 0 <= a < b < |days|
      ensures Texts(days)[a] != Texts(days)[b]
    {
      SameTextSameDay(days[a], days[b]);
    }
  }

  lemma SameTextSameDay(a: int, b: int)
    ensures Ymd(a) == Ymd(b) <==> a == b
  {
    if Ymd(a) == Ymd(b) {
      YmdIsInjective(a, b);
    }
  }

  // counts[index.get(text)] += 1
  method Bump(counts: array<nat>, found: Option<nat>)
    requires found.Some? ==> found.value < counts.Length
    modifies counts
    ensures forall i :: 0 <= i < counts.Length ==> counts[i] == old(counts[i]) + if found == Some(i) then 1 else 0
  {
    if found.Some? {
      counts[found.value] := counts[found.value] + 1;
    }
  }

  // One date counted in the week that has it.
  method Count(counts: array<nat>, days: seq<int>, starts: seq<string>, date: Option<int>)
    requires counts.Length == |days| && starts == Texts(days) && forall a, b :: 0 <= a < b < |days| ==> days[a] != days[b]
    modifies counts
    ensures forall i :: 0 <= i < |days| ==>
              counts[i] == old(counts[i]) + if date.Some? && WeekStart(date.value) == days[i] then 1 else 0
  {
    if date.Some? {
      var week := WeekStart(date.value);
      var found := IndexOf(starts, Ymd(week));
      TextsDiffer(days);
      forall i | 0 <= i < |days|
        ensures found == Some(i) <==> week == days[i]
      {
        IndexFinds(starts, i);
        SameTextSameDay(week, days[i]);
      }
      Bump(counts, found);
    }
  }

  method BinWeekly(dates: seq<Option<int>>, count: int, now: int) returns (counts: array<nat>)
    requires Modern(now)
    ensures fresh(counts) && counts.Length == if count > 0 then count else 0
    ensures forall i :: 0 <= i < counts.Length ==> counts[i] == InWeek(dates, Start(now, counts.Length, i))
  {
    var starts, _ := LastWeeks(count, now);
    var days := Starts(now, if count > 0 then count else 0);
    counts := new nat[|starts|](_ => 0);
    ghost var weeks := WeeksOf(dates);
    for k := 0 to |dates|
      invariant Tallied(counts[..], days, weeks[..k])
    {
      ghost var was := counts[..];
      Count(counts, days, starts, dates[k]);
      TallyMore(was, counts[..], days, weeks, k);
    }
    assert weeks[..|dates|] == weeks;
  }

  ghost predicate Tallied(counts: seq<nat>, days: seq<int>, weeks: seq<Option<int>>) {
    |counts| == |days| && forall i :: 0 <= i < |counts| ==> counts[i] == Tally(weeks, days[i])
  }

  lemma TallyMore(was: seq<nat>, counts: seq<nat>, days: seq<int>, weeks: seq<Option<int>>, k: nat)
    requires k < |weeks| && |counts| == |days| && Tallied(was, days, weeks[..k])
    requires forall i :: 0 <= i < |days| ==> counts[i] == was[i] + if weeks[k] == Some(days[i]) then 1 else 0
    ensures Tallied(counts, days, weeks[..k + 1])
  {
    assert weeks[..k + 1][..k] == weeks[..k];
  }

  // ---- every date in the window is counted exactly once ----

  // The counts of the first k of n weeks.
  function Counts(dates: seq<Option<int>>, now: int, n: nat, k: nat): (c: seq<nat>)
    requires k <= n
    ensures |c| == k && forall i :: 0 <= i < k ==> c[i] == InWeek(dates, Start(now, n, i))
  {
    seq(k, i requires 0 <= i < k => InWeek(dates, Start(now, n, i)))
  }

  lemma {:induction false} WeekAdds(dates: seq<Option<int>>, from: int, start: int)
    requires IsMonday(start) && from <= start
    requires forall i :: 0 <= i < |dates| && dates[i].Some? ==> Modern(dates[i].value)
    ensures Between(dates, from, start + 7) == Between(dates, from, start) + InWeek(dates, start)
  {
    if dates != [] {
      var d := dates[|dates| - 1];
      WeekAdds(dates[..|dates| - 1], from, start);
      assert WeeksOf(dates)[..|dates| - 1] == WeeksOf(dates[..|dates| - 1]);
      if d.Some? {
        ModernYears(d.value);
        WeekStartIsMonday(d.value);
        OneWeekEach(d.value, start);
      }
    }
  }

  lemma {:induction false} EmptyBetween(dates: seq<Option<int>>, from: int)
    ensures Between(dates, from, from) == 0
  {
    if dates != [] {
      EmptyBetween(dates[..|dates| - 1], from);
    }
  }

  // The weekly counts sum to the dates from the first Monday to the end of the current week, dates still
  // to come in that week included.
  lemma {:induction false} CountsSum(dates: seq<Option<int>>, now: int, n: nat, k: nat)
    requires 0 < n && k <= n && forall i :: 0 <= i < |dates| && dates[i].Some? ==> Modern(dates[i].value)
    ensures Total(Counts(dates, now, n, k)) == Between(dates, Start(now, n, 0), Start(now, n, k))
  {
    if k == 0 {
      EmptyBetween(dates, Start(now, n, 0));
    } else {
      CountsSum(dates, now, n, k - 1);
      assert Counts(dates, now, n, k)[..k - 1] == Counts(dates, now, n, k - 1);
      StartIsMonday(now, n, k - 1);
      WeekAdds(dates, Start(now, n, 0), Start(now, n, k - 1));
    }
  }

  // ---- dates still to come ----

  // What the function is documented to count: dates after now are ignored.
  function Past(dates: seq<Option<int>>, now: int): (p: seq<Option<int>>)
    ensures |p| == |dates|
    ensures forall i :: 0 <= i < |p| ==> p[i] == if dates[i].Some? && dates[i].value > now then None else dates[i]
  {
    seq(|dates|, i requires 0 <= i < |dates| => if dates[i].Some? && dates[i].value > now then None else dates[i])
  }

  // In the rest of the current week.
  predicate ThisWeek(d: Option<int>, now: int) {
    d.Some? && now < d.value < Monday(now) + 7
  }

  predicate AllModern(dates: seq<Option<int>>) {
    forall i :: 0 <= i < |dates| && dates[i].Some? ==> Modern(dates[i].value)
  }

  lemma PastMore(dates: seq<Option<int>>, now: int)
    requires dates != []
    ensures Past(dates, now)[..|dates| - 1] == Past(dates[..|dates| - 1], now)
  {
  }

  lemma InWeekMore(dates: seq<Option<int>>, start: int)
    requires dates != []
    ensures var d := dates[|dates| - 1];
      InWeek(dates, start) == InWeek(dates[..|dates| - 1], start) + if d.Some? && WeekStart(d.value) == start then 1 else 0
  {
    assert WeeksOf(dates)[..|dates| - 1] == WeeksOf(dates[..|dates| - 1]);
  }

  // A week up to the current one has the same dates without those to come, if none of them is in this week.
  lemma {:induction false} SameWithoutFuture(dates: seq<Option<int>>, now: int, start: int)
    requires AllModern(dates) && IsMonday(start) && start <= Monday(now)
    requires forall i :: 0 <= i < |dates| ==> !ThisWeek(dates[i], now)
    ensures InWeek(Past(dates, now), start) == InWeek(dates, start)
  {
    if dates != [] {
      var init, d := dates[..|dates| - 1], dates[|dates| - 1];
      SameWithoutFuture(init, now, start);
      PastMore(dates, now);
      InWeekMore(dates, start);
      InWeekMore(Past(dates, now), start);
      if d.Some? && d.value > now {
        LaterWeek(d.value, now, start);
      }
    }
  }

  lemma LaterWeek(day: int, now: int, start: int)
    requires Modern(day) && day > now && !ThisWeek(Some(day), now) && start <= Monday(now)
    ensures WeekStart(day) != start
  {
    ModernYears(day);
    WeekStartIsMonday(day);
    OneWeekEach(day, Monday(day));
    OneWeekEach(now, Monday(now));
  }

  lemma {:induction false} FewerWithoutFuture(dates: seq<Option<int>>, now: int, from: int)
    requires from <= Monday(now)
    ensures Between(Past(dates, now), from, Monday(now) + 7) <= Between(dates, from, Monday(now) + 7)
    ensures (exists i :: 0 <= i < |dates| && ThisWeek(dates[i], now)) ==>
      Between(Past(dates, now), from, Monday(now) + 7) < Between(dates, from, Monday(now) + 7)
  {
    if dates != [] {
      FewerWithoutFuture(dates[..|dates| - 1], now, from);
      PastMore(dates, now);
      if i :| 0 <= i < |dates| && ThisWeek(dates[i], now) {
        if i < |dates| - 1 {
          assert ThisWeek(dates[..|dates| - 1][i], now);
        }
      }
    }
  }

  // Dates in the future are ignored if and only if none of them lies in the rest of the current week.
  lemma FutureIgnoredExactly(dates: seq<Option<int>>, now: int, n: nat)
    requires 0 < n && AllModern(dates)
    ensures Counts(dates, now, n, n) == Counts(Past(dates, now), now, n, n)
       <==> forall i :: 0 <= i < |dates| ==> !ThisWeek(dates[i], now)
  {
    if forall i :: 0 <= i < |dates| ==> !ThisWeek(dates[i], now) {
      forall i | 0 <= i < n
        ensures InWeek(Past(dates, now), Start(now, n, i)) == InWeek(dates, Start(now, n, i))
      {
        StartIsMonday(now, n, i);
        SameWithoutFuture(dates, now, Start(now, n, i));
      }
      assert Counts(dates, now, n, n) == Counts(Past(dates, now), now, n, n);
    } else {
      TotalsDiffer(dates, now, n);
    }
  }

  lemma TotalsDiffer(dates: seq<Option<int>>, now: int, n: nat)
    requires 0 < n && AllModern(dates) && exists i :: 0 <= i < |dates| && ThisWeek(dates[i], now)
    ensures Total(Counts(dates, now, n, n)) > Total(Counts(Past(dates, now), now, n, n))
  {
    CountsSum(dates, now, n, n);
    CountsSum(Past(dates, now), now, n, n);
    FewerWithoutFuture(dates, now, Start(now, n, 0));
  }

  // A date after now that is counted, in the current week.
  lemma FutureDateCounted(now: int, day: int)
    requires Modern(now) && ThisWeek(Some(day), now)
    ensures Counts([Some(day)], now, 1, 1) == [1]
  {
    ModernYears(day);
    WeekStartIsMonday(day);
    StartIsMonday(now, 1, 0);
    OneWeekEach(day, Monday(now));
    var weeks := WeeksOf([Some(day)]);
    assert weeks == [Some(Monday(now))] && weeks[..0] == [] && Tally([], Monday(now)) == 0;
  }

  // Monday 5 January 1970, and the Tuesday after it.
  lemma TomorrowCounted()
    ensures Counts([Some(5)], 4, 1, 1) == [1]
  {
    var now, day := 4, 5;
    YearsOrdered(100, 1970);
    FutureDateCounted(now, day);
  }
}
