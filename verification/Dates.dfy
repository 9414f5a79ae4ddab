/** date: day numbers and Gregorian dates. */
module Dates {

  // Division as the machine does it, towards zero.
  function Quot(a: int, b: int): int
    requires b > 0
  {
    if a >= 0 then a / b else -((-a) / b)
  }

  function Rem(a: int, b: int): int
    requires b > 0
  {
    a - b * Quot(a, b)
  }

  datatype Date = Date(y: int, m: int, d: int)
  datatype Day = Day(n: int) | NoDay

  function MonthDays(m: int): int {
    if m == 2 then 28 else if m == 4 || m == 6 || m == 9 || m == 11 then 30 else 31
  }

  // mkDat
  function MkDat(y: int, m: int, d: int): Day {
    if m < 1 || m > 12 || d < 1
       || (d > MonthDays(m) && (m != 2 || d != 29 || Rem(y, 4) != 0
                                || (Rem(y, 100) == 0 && Rem(y, 400) != 0))) then NoDay
    else
      var n := Quot(12 * y + m - 3, 12);
      Day(Quot(4404 * y + 367 * m - 1094, 12) - 2 * n + Quot(n, 4) - Quot(n, 100) + Quot(n, 400) + d)
  }

  // doDate on a number
  function FromDay(n0: int): Date {
    var c := Quot(100 * n0 - 20, 3652425);
    var n1 := n0 + (c - Quot(c, 4));
    var y := Quot(100 * n1 - 20, 36525);
    var n2 := n1 - Quot(36525 * y, 100);
    var m := Quot(10 * n2 - 5, 306);
    var d := Quot(10 * n2 - 306 * m + 5, 10);
    if m < 10 then Date(y, m + 3, d) else Date(y + 1, m - 9, d)
  }

  // ---------- the calendar ----------

  predicate Leap(y: int) {
    y % 4 == 0 && (y % 100 != 0 || y % 400 == 0)
  }

  function DaysIn(y: int, m: int): int {
    if m == 2 && Leap(y) then 29 else MonthDays(m)
  }

  predicate Valid(t: Date) {
    1 <= t.m <= 12 && 1 <= t.d <= DaysIn(t.y, t.m)
  }

  // From 1 March of the year 0 on.
  predicate InRange(t: Date) {
    Valid(t) && (t.y >= 1 || (t.y == 0 && t.m >= 3))
  }

  function Next(t: Date): Date {
    if t.d < DaysIn(t.y, t.m) then Date(t.y, t.m, t.d + 1)
    else if t.m < 12 then Date(t.y, t.m + 1, 1)
    else Date(t.y + 1, 1, 1)
  }

  // Exactly the dates of the calendar have a day number, from the year 0 on.
  lemma ValidExactly(y: int, m: int, d: int)
    requires y >= 0
    ensures MkDat(y, m, d).Day? <==> Valid(Date(y, m, d))
  {
  }

  // Years that begin in March, and the months counted from there.
  function MarchYear(t: Date): int {
    if t.m <= 2 then t.y - 1 else t.y
  }

  function MarchMonth(t: Date): int {
    if t.m <= 2 then t.m + 9 else t.m - 3
  }

  // The days before month k of such a year.
  function Before(k: int): int {
    (306 * k + 5) / 10
  }

  // The month's part of the number, and the year that it is counted in.
  lemma MonthPart(y: int, m: int)
    requires y >= 0 && 1 <= m <= 12 && (y >= 1 || m >= 3)
    ensures (var n := MarchYear(Date(y, m, 1));
             n >= 0 && Quot(12 * y + m - 3, 12) == n
               && Quot(4404 * y + 367 * m - 1094, 12) - 2 * n == 365 * n + Before(MarchMonth(Date(y, m, 1))))
  {
    assert m == 1 || m == 2 || m == 3 || m == 4 || m == 5 || m == 6 || m == 7 || m == 8 || m == 9 || m == 10 || m == 11
           || m == 12;
  }

  // The day number in those terms.
  lemma NumberIs(t: Date)
    requires InRange(t)
    ensures MkDat(t.y, t.m, t.d).Day?
    ensures (var y := MarchYear(t);
             y >= 0 && MkDat(t.y, t.m, t.d).n == 365 * y + y / 4 - y / 100 + y / 400 + Before(MarchMonth(t)) + t.d)
  {
    MonthPart(t.y, t.m);
    ValidExactly(t.y, t.m, t.d);
    hide Before, Leap, DaysIn, MonthDays, Rem;
  }

  // The day of such a year, and that it lies within its month and its year.
  lemma DayOfYear(t: Date)
    requires InRange(t)
    ensures (var k := MarchMonth(t); var x := Before(k) + t.d;
             && 0 <= k <= 11 && 1 <= x <= 365 + (if Leap(MarchYear(t) + 1) then 1 else 0)
             && (if k < 11 then x <= Before(k + 1) else t.d <= 29))
  {
  }

  // The day number n of the day x of the year y gives back the century.
  lemma CenturyOf(y: int, x: int, n: int)
    requires y >= 0 && 1 <= x <= 365 + (if Leap(y + 1) then 1 else 0)
    requires n == 365 * y + y / 4 - y / 100 + y / 400 + x
    ensures (100 * n - 20) / 3652425 == y / 100
  {
    var c, t := y / 100, y % 100;
    CenturyParts(y);
    hide Leap;
    CenturyBounds(c, t, x, n);
  }

  lemma CenturyParts(y: int)
    requires y >= 0
    ensures y / 400 == y / 100 / 4 && y / 4 == 25 * (y / 100) + y % 100 / 4
    ensures Leap(y + 1) && y % 100 == 99 ==> y / 100 % 4 == 3
  {
  }

  lemma CenturyBounds(c: int, t: int, x: int, n: int)
    requires c >= 0 && 0 <= t < 100 && 1 <= x <= 366 && n == 36524 * c + c / 4 + 365 * t + t / 4 + x
    requires x == 366 && t == 99 ==> c % 4 == 3
    ensures (100 * n - 20) / 3652425 == c
  {
    assert 3652425 * c <= 100 * n - 20;
    assert 100 * n - 20 < 3652425 * (c + 1);
  }

  // Without the corrections for centuries the year comes out.
  lemma YearOf(y: int, x: int, n: int)
    requires y >= 0 && 1 <= x <= 366 && (x == 366 ==> y % 4 == 3) && n == 365 * y + y / 4 + x
    ensures (100 * n - 20) / 36525 == y && n - 36525 * y / 100 == x
  {
  }

  // The day of the year gives the month and the day.
  lemma MonthOf(k: int, d: int)
    requires 0 <= k <= 11 && 1 <= d && (if k < 11 then Before(k) + d <= Before(k + 1) else d <= 29)
    ensures (10 * (Before(k) + d) - 5) / 306 == k && (10 * (Before(k) + d) - 306 * k + 5) / 10 == d
  {
    assert k == 0 || k == 1 || k == 2 || k == 3 || k == 4 || k == 5 || k == 6 || k == 7 || k == 8 || k == 9 || k == 10
           || k == 11;
  }

  // The steps of doDate, one by one.
  lemma FromIs(n: int, c: int, y: int, x: int, k: int, d: int)
    requires n >= 1 && c >= 0 && y >= 0 && 0 <= k <= 11 && x >= 1 && d >= 1
    requires (100 * n - 20) / 3652425 == c
    requires (100 * (n + (c - c / 4)) - 20) / 36525 == y && n + (c - c / 4) - 36525 * y / 100 == x
    requires (10 * x - 5) / 306 == k && (10 * x - 306 * k + 5) / 10 == d
    ensures FromDay(n) == if k < 10 then Date(y, k + 3, d) else Date(y + 1, k - 9, d)
  {
    assert 10 * x - 306 * k + 5 >= 0;
  }

  // A date comes back from its day number.
  lemma DateBack(t: Date)
    requires InRange(t)
    ensures MkDat(t.y, t.m, t.d).Day? && MkDat(t.y, t.m, t.d).n >= 1 && FromDay(MkDat(t.y, t.m, t.d).n) == t
  {
    NumberIs(t);
    DayOfYear(t);
    hide MkDat, Leap, DaysIn, Before, FromDay;
    var y, k := MarchYear(t), MarchMonth(t);
    var x, n := Before(k) + t.d, MkDat(t.y, t.m, t.d).n;
    CenturyOf(y, x, n);
    LeapMod(y);
    var c := y / 100;
    assert y / 400 == c / 4;
    YearOf(y, x, n + (c - c / 4));
    MonthOf(k, t.d);
    FromIs(n, c, y, x, k, t.d);
  }

  lemma LeapMod(y: int)
    ensures Leap(y + 1) ==> y % 4 == 3
  {
  }

  // The last day of a month is followed by the first of the next, the last of February by 1 March.
  lemma MonthEnd(t: Date)
    requires InRange(t) && t.d == DaysIn(t.y, t.m)
    ensures (var y, k := MarchYear(t), MarchMonth(t); var u := Next(t);
             && InRange(u) && u.d == 1
             && (k < 11 ==> MarchYear(u) == y && MarchMonth(u) == k + 1 && Before(k) + t.d == Before(k + 1))
             && (k == 11 ==> MarchYear(u) == y + 1 && MarchMonth(u) == 0
                             && Before(k) + t.d == 365 + (if Leap(y + 1) then 1 else 0)))
  {
  }

  lemma YearEnd(y: int)
    requires y >= 0
    ensures 365 * (y + 1) + (y + 1) / 4 - (y + 1) / 100 + (y + 1) / 400
            == 365 * y + y / 4 - y / 100 + y / 400 + 365 + (if Leap(y + 1) then 1 else 0)
  {
    var c, t := y / 100, y % 100;
    assert y / 400 == c / 4 && (t < 99 ==> (y + 1) / 100 == c) && (t == 99 ==> (y + 1) / 100 == c + 1);
  }

  // Consecutive dates have consecutive numbers.
  lemma NextNumber(t: Date)
    requires InRange(t)
    ensures InRange(Next(t)) && MkDat(Next(t).y, Next(t).m, Next(t).d).Day? && MkDat(t.y, t.m, t.d).Day?
    ensures MkDat(Next(t).y, Next(t).m, Next(t).d).n == MkDat(t.y, t.m, t.d).n + 1
  {
    NumberIs(t);
    if t.d == DaysIn(t.y, t.m) {
      MonthEnd(t);
      YearEnd(MarchYear(t));
      NumberIs(Next(t));
      assert Before(0) == 0;
      hide MkDat, Leap, DaysIn, InRange, Before;
    } else {
      NumberIs(Next(t));
      hide MkDat, Leap, Before;
    }
  }

  // The date number n days after another one.
  function Later(t: Date, n: nat): Date {
    if n == 0 then t else Next(Later(t, n - 1))
  }

  lemma {:induction false} LaterNumber(t: Date, n: nat)
    requires InRange(t)
    ensures InRange(Later(t, n)) && MkDat(Later(t, n).y, Later(t, n).m,
                                          Later(t, n).d) == Day(MkDat(t.y, t.m, t.d).n + n)
    ensures MkDat(t.y, t.m, t.d).Day?
  {
    hide MkDat, InRange;
    if n > 0 {
      LaterNumber(t, n - 1);
      NextNumber(Later(t, n - 1));
    } else {
      DateBack(t);
    }
  }

  lemma FirstDay()
    ensures InRange(Date(0, 3, 1)) && MkDat(0, 3, 1) == Day(1)
  {
  }

  // Every number from 1 on is that of exactly one date, the one that comes back.
  lemma NumberBack(n: int)
    requires n >= 1
    ensures InRange(FromDay(n)) && MkDat(FromDay(n).y, FromDay(n).m, FromDay(n).d) == Day(n)
  {
    hide MkDat, FromDay, InRange;
    FirstDay();
    LaterNumber(Date(0, 3, 1), n - 1);
    DateBack(Later(Date(0, 3, 1), n - 1));
  }

  // ---------- machine integers ----------

  predicate Fits(x: int) {
    -0x8000_0000 <= x < 0x8000_0000
  }

  // Every step of doDate on a number.
  predicate DayStepsFit(n0: int) {
    var c := Quot(100 * n0 - 20, 3652425);
    var n1 := n0 + (c - Quot(c, 4));
    var y := Quot(100 * n1 - 20, 36525);
    var n2 := n1 - Quot(36525 * y, 100);
    var m := Quot(10 * n2 - 5, 306);
    && Fits(n0) && Fits(100 * n0) && Fits(100 * n0 - 20) && Fits(c) && Fits(c - Quot(c, 4)) && Fits(n1)
    && Fits(100 * n1) && Fits(100 * n1 - 20) && Fits(y) && Fits(36525 * y) && Fits(n2)
    && Fits(10 * n2) && Fits(10 * n2 - 5) && Fits(m) && Fits(306 * m) && Fits(10 * n2 - 306 * m)
    && Fits(10 * n2 - 306 * m + 5) && Fits(m + 3) && Fits(m - 9) && Fits(y + 1)
  }

  // Every step of mkDat, in the order in which the sum is formed.
  predicate DateStepsFit(t: Date) {
    var n := Quot(12 * t.y + t.m - 3, 12);
    var s := Quot(4404 * t.y + 367 * t.m - 1094, 12);
    && Fits(12 * t.y) && Fits(12 * t.y + t.m) && Fits(12 * t.y + t.m - 3) && Fits(n)
    && Fits(4404 * t.y) && Fits(367 * t.m) && Fits(4404 * t.y + 367 * t.m) && Fits(4404 * t.y + 367 * t.m - 1094)
    && Fits(2 * n) && Fits(s - 2 * n) && Fits(s - 2 * n + Quot(n, 4)) && Fits(s - 2 * n + Quot(n, 4) - Quot(n, 100))
    && Fits(s - 2 * n + Quot(n, 4) - Quot(n, 100) + Quot(n, 400))
    && Fits(s - 2 * n + Quot(n, 4) - Quot(n, 100) + Quot(n, 400) + t.d)
  }

  // The last day number, and the last month, whose steps all fit into 32 bits.
  const LAST_DAY := 21474395
  const LAST_YEAR := 487621
  const LAST_MONTH := 2

  lemma DaysFit(n: int)
    requires n >= 1
    ensures DayStepsFit(n) <==> n <= LAST_DAY
  {
    var c := (100 * n - 20) / 3652425;
    if n <= LAST_DAY {
      assert c <= 587;
    } else {
      assert c - c / 4 >= 441;
    }
  }

  lemma DatesFit(t: Date)
    requires InRange(t)
    ensures DateStepsFit(t) <==> t.y < LAST_YEAR || (t.y == LAST_YEAR && t.m <= LAST_MONTH)
  {
    hide Leap, DaysIn, MonthDays;
    assert t.d <= 31 by {
      DayAtMost(t);
    }
  }

  lemma DayAtMost(t: Date)
    requires Valid(t)
    ensures t.d <= 31
  {
  }
}
