/** The calendar's date arithmetic: Zeller's congruence, month stepping and the month grid.

    The reference is `Ordinal`, the number of days since the eve of 1 January of year 1 in the
    Gregorian calendar: it grows by one from each date to the next, and its remainder modulo
    seven is the day of the week. */
module Dates {
  import opened Bits
  import opened Fixed

  datatype Date = Date(year: nat, month: nat, day: nat)

  const TWO32: nat := 0x1_0000_0000

  /** Zeller's congruence, 0 for Sunday; the year before year 0 wraps around. */
  function DayOfWeek(year: nat, month: nat, day: nat): (w: nat)
    ensures w < 7
  {
    var y := if month < 3 then (year - 1) % TWO32 else year;
    var h := (day + MonthSum(month) + YearSum(y)) % 7;
    (h + 6) % 7
  }

  /** What the month contributes to Zeller's sum, with January and February counted as 13 and 14. */
  function MonthSum(m: nat): (n: nat) { 13 * ((if m < 3 then m + 12 else m) + 1) / 5 }

  /** What the year contributes, by its place in the century and the century. */
  function YearSum(y: nat): (n: nat) { y % 100 + y % 100 / 4 + y / 100 / 4 + 5 * (y / 100) }

  predicate Leap(year: nat) { (year % 4 == 0 && year % 100 != 0) || year % 400 == 0 }

  function DaysInMonth(year: nat, month: nat): (n: nat)
  {
    match month
    case 1 => 31 case 3 => 31 case 5 => 31 case 7 => 31 case 8 => 31 case 10 => 31 case 12 => 31
    case 4 => 30 case 6 => 30 case 9 => 30 case 11 => 30
    case 2 => if Leap(year) then 29 else 28
    case _ => 0
  }

  predicate IsDate(d: Date) { d.year >= 1 && 1 <= d.month <= 12 && 1 <= d.day <= DaysInMonth(d.year, d.month) }

  // ----- the reference -----

  function NextDay(d: Date): (r: Date)
  {
    if d.day < DaysInMonth(d.year, d.month) then d.(day := d.day + 1)
    else if d.month < 12 then Date(d.year, d.month + 1, 1)
    else Date(d.year + 1, 1, 1)
  }

  /** Leap years up to and including `year`. */
  function Leaps(year: nat): (n: int) { year / 4 - year / 100 + year / 400 }

  /** Days of a common year before the first of `month`. */
  function Before(month: nat): (n: nat)
  {
    match month
    case 1 => 0 case 2 => 31 case 3 => 59 case 4 => 90 case 5 => 120 case 6 => 151
    case 7 => 181 case 8 => 212 case 9 => 243 case 10 => 273 case 11 => 304 case _ => 334
  }

  function Ordinal(d: Date): (n: int)
    requires d.year >= 1
  {
    365 * (d.year - 1) + Leaps(d.year - 1) + Before(d.month) + (if d.month > 2 && Leap(d.year) then 1 else 0) + d.day
  }

  lemma LeapsStep(year: nat)
    requires year >= 1
    ensures Leaps(year) == Leaps(year - 1) + if Leap(year) then 1 else 0
  {
    DivStep(year, 4);
    DivStep(year, 100);
    DivStep(year, 400);
    FactorMod(year, 4, 25);
    FactorMod(year, 100, 4);
  }

  lemma DivStep(n: nat, m: nat)
    requires n >= 1 && (m == 4 || m == 100 || m == 400)
    ensures n / m == (n - 1) / m + if n % m == 0 then 1 else 0
  {
  }

  lemma FactorMod(n: nat, a: nat, b: nat)
    requires (a == 4 && b == 25) || (a == 100 && b == 4)
    ensures n % (a * b) == 0 ==> n % a == 0
  {
  }

  /** The ordinal counts days: each date's successor has the next number. */
  lemma OrdinalNext(d: Date)
    requires IsDate(d)
    ensures IsDate(NextDay(d)) && Ordinal(NextDay(d)) == Ordinal(d) + 1
  {
    hide Leaps, Leap;
    if d.day == DaysInMonth(d.year, d.month) && d.month == 12 { LeapsStep(d.year); }
  }

  lemma Hundreds(y: nat)
    ensures var k, j := y % 100, y / 100;
            Leaps(y) == 24 * j + k / 4 + j / 4 && y == 100 * j + k
  {
    var k, j := y % 100, y / 100;
    assert y / 4 == 25 * j + k / 4;
    assert y / 400 == j / 4;
  }

  lemma YearTerm(y: nat)
    ensures 365 * y + Leaps(y) == YearSum(y) + 7 * (5217 * (y / 100) + 52 * (y % 100))
  {
    hide Leaps;
    Hundreds(y);
  }

  lemma MonthTerm(m: nat) returns (q: int)
    requires 1 <= m <= 12
    ensures MonthSum(m) + 7 * q == Before(m) + 7 * (if m < 3 then 1 else 2) + (if m < 3 then 1 else 0)
  {
    var d := Before(m) + 7 * (if m < 3 then 1 else 2) + (if m < 3 then 1 else 0) - MonthSum(m);
    q := d / 7;
  }

  lemma SameRemainder(a: int, b: int, q: int)
    requires a == b + 7 * q
    ensures a % 7 == b % 7
  {
  }

  /** Zeller's congruence is the ordinal modulo seven. */
  lemma ZellerIsOrdinal(d: Date)
    requires 1 <= d.year < TWO32 && 1 <= d.month <= 12
    ensures DayOfWeek(d.year, d.month, d.day) == Ordinal(d) % 7
  {
    hide Leaps, Leap, YearSum, MonthSum, Before;
    var y := if d.month < 3 then d.year - 1 else d.year;
    YearTerm(y);
    LeapsStep(d.year);
    var q := MonthTerm(d.month);
    var h := d.day + MonthSum(d.month) + YearSum(y);
    var r := 5217 * (y / 100) + 52 * (y % 100) + q - (if d.month < 3 then 1 else 2) - (if d.month < 3 then 0 else 52);
    assert Ordinal(d) == (h - 1) + 7 * r;
    SameRemainder(Ordinal(d), h - 1, r);
    BackOne(h);
  }

  lemma BackOne(h: nat)
    ensures (h % 7 + 6) % 7 == (h - 1) % 7
  {
  }

  /** The day of the week advances by one, modulo seven, across days, months, leap days and years. */
  lemma WeekdayAdvances(d: Date)
    requires IsDate(d) && d.year + 1 < TWO32
    ensures var n := NextDay(d); DayOfWeek(n.year, n.month, n.day) == (DayOfWeek(d.year, d.month, d.day) + 1) % 7
  {
    hide DayOfWeek, Ordinal;
    OrdinalNext(d);
    ZellerIsOrdinal(d);
    ZellerIsOrdinal(NextDay(d));
  }

  // ----- stepping months -----

  datatype View = View(year: nat, month: nat)

  predicate IsView(v: View) { 1 <= v.year <= 9999 && 1 <= v.month <= 12 }

  /** Months since the start of year 0. */
  function Months(v: View): (n: int) { 12 * v.year + v.month - 1 }

  /** The view `delta` months on, held at January of year 1 and December of year 9999. */
  function StepTo(v: View, delta: int): (r: View)
  {
    var n := Months(v) + delta;
    if n < 12 then View(1, 1) else if n > 12 * 9999 + 11 then View(9999, 12) else View(n / 12, n % 12 + 1)
  }

  /** The source's step, with division that truncates toward zero. */
  method Step(year: nat, month: nat, delta: int) returns (y: nat, m: nat)
    requires 1 <= month <= 12
    ensures View(y, m) == StepTo(View(year, month), delta)
  {
    var n := month + delta - 1;
    var dy := Quot(n, 12);
    var mo := n - 12 * dy;
    if mo < 0 {
      mo := mo + 12;
      dy := dy - 1;
    }
    assert n == 12 * dy + mo && 0 <= mo < 12;
    var ny := year + dy;
    if ny < 1 { return 1, 1; }
    if ny > 9999 { return 9999, 12; }
    return ny, mo + 1;
  }

  /** A step that is not held moves exactly `delta` months, and stepping back undoes it. */
  lemma StepExact(v: View, delta: int)
    requires IsView(v)
    ensures IsView(StepTo(v, delta))
    ensures 12 <= Months(v) + delta <= 12 * 9999 + 11 ==>
              Months(StepTo(v, delta)) == Months(v) + delta && StepTo(StepTo(v, delta), -delta) == v
  {
  }

  // ----- the grid -----

  /** The date shown in cell `k`, counted row by row. */
  function Cell(v: View, k: nat): (d: Date)
    requires IsView(v)
  {
    var ord := k - DayOfWeek(v.year, v.month, 1);
    var days := DaysInMonth(v.year, v.month);
    var prev, next := StepTo(v, -1), StepTo(v, 1);
    if ord < 0 then Date(prev.year, prev.month, Natural(DaysInMonth(prev.year, prev.month) + ord + 1))
    else if ord >= days then Date(next.year, next.month, ord - days + 1)
    else Date(v.year, v.month, ord + 1)
  }

  function Natural(n: int): (r: nat) { if n < 0 then 0 else n }

  predicate Inner(v: View) { IsView(v) && v != View(1, 1) && v != View(9999, 12) }

  lemma MonthLength(year: nat, month: nat)
    requires 1 <= month <= 12
    ensures 28 <= DaysInMonth(year, month) <= 31
  {
  }

  /** The first of the next month follows the last of this one. */
  lemma NextMonth(v: View)
    requires IsView(v) && v != View(9999, 12)
    ensures var n := StepTo(v, 1);
            && IsView(n)
            && Ordinal(Date(n.year, n.month, 1)) == Ordinal(Date(v.year, v.month, 1)) + DaysInMonth(v.year, v.month)
  {
    hide Ordinal;
    var days := DaysInMonth(v.year, v.month);
    MonthLength(v.year, v.month);
    var last := Date(v.year, v.month, days);
    OrdinalNext(last);
    OrdinalShift(last, 1);
    assert NextDay(last) == Date(StepTo(v, 1).year, StepTo(v, 1).month, 1);
  }

  lemma OrdinalShift(d: Date, day: nat)
    requires d.year >= 1
    ensures Ordinal(d) - Ordinal(d.(day := day)) == d.day - day
  {
  }

  /** Every cell is a date, and its ordinal is the first of the month's, less the days of the week
      before it, plus the cell's number: 42 consecutive days. */
  lemma CellOrdinal(v: View, k: nat)
    requires Inner(v) && k < 42
    ensures IsDate(Cell(v, k))
    ensures Ordinal(Cell(v, k)) == Ordinal(Date(v.year, v.month, 1)) - DayOfWeek(v.year, v.month, 1) + k
  {
    hide Ordinal, DayOfWeek;
    var ord := k - DayOfWeek(v.year, v.month, 1);
    var prev, next := StepTo(v, -1), StepTo(v, 1);
    StepExact(v, -1);
    StepExact(v, 1);
    MonthLength(v.year, v.month);
    MonthLength(prev.year, prev.month);
    MonthLength(next.year, next.month);
    var d := Cell(v, k);
    if ord < 0 {
      NextMonth(prev);
      OrdinalShift(d, 1);
    } else if ord >= DaysInMonth(v.year, v.month) {
      NextMonth(v);
      OrdinalShift(d, 1);
    } else {
      OrdinalShift(d, 1);
    }
  }

  /** A cell's column is its day of the week. */
  lemma CellColumn(v: View, k: nat)
    requires Inner(v) && k < 42
    ensures var d := Cell(v, k); DayOfWeek(d.year, d.month, d.day) == k % 7
  {
    hide Ordinal, DayOfWeek, Cell;
    var first := Date(v.year, v.month, 1);
    var d := Cell(v, k);
    CellOrdinal(v, k);
    CellYear(v, k);
    ZellerIsOrdinal(first);
    ZellerIsOrdinal(d);
    var q := Ordinal(first) / 7;
    assert Ordinal(d) == k + 7 * q;
    SameRemainder(Ordinal(d), k, q);
  }

  lemma CellYear(v: View, k: nat)
    requires Inner(v)
    ensures 1 <= Cell(v, k).year <= 9999
  {
    hide DayOfWeek;
    StepExact(v, -1);
    StepExact(v, 1);
  }

  /** Each cell's successor day is in the next cell. */
  lemma CellNext(v: View, k: nat)
    requires Inner(v) && k < 41
    ensures Cell(v, k + 1) == NextDay(Cell(v, k))
  {
    hide Ordinal, DayOfWeek;
    CellOrdinal(v, k);
    CellOrdinal(v, k + 1);
    StepExact(v, -1);
    StepExact(v, 1);
    MonthLength(v.year, v.month);
    MonthLength(StepTo(v, 1).year, StepTo(v, 1).month);
    PrevNext(v);
  }

  lemma PrevNext(v: View)
    requires Inner(v)
    ensures var p := StepTo(v, -1);
            NextDay(Date(p.year, p.month, DaysInMonth(p.year, p.month))) == Date(v.year, v.month, 1)
    ensures var n := StepTo(v, 1);
            NextDay(Date(v.year, v.month, DaysInMonth(v.year, v.month))) == Date(n.year, n.month, 1)
  {
  }

  /** Each day of the viewed month is in exactly one cell. */
  lemma EachDayOnce(v: View, day: nat, k: nat)
    requires Inner(v) && 1 <= day <= DaysInMonth(v.year, v.month) && k < 42
    ensures Cell(v, k) == Date(v.year, v.month, day) <==> k == DayOfWeek(v.year, v.month, 1) + day - 1
    ensures DayOfWeek(v.year, v.month, 1) + day - 1 < 42
  {
    hide Ordinal, DayOfWeek;
    CellOrdinal(v, k);
    MonthLength(v.year, v.month);
    OrdinalShift(Date(v.year, v.month, day), 1);
  }

  ghost predicate Consecutive(v: View)
    requires IsView(v)
  {
    forall k :: 0 <= k < 41 ==> Cell(v, k + 1) == NextDay(Cell(v, k))
  }

  /** The grid shows consecutive days exactly when the view is not one of the two at which
      stepping is held. */
  lemma ConsecutiveIff(v: View)
    requires IsView(v)
    ensures Consecutive(v) <==> v != View(1, 1) && v != View(9999, 12)
  {
    hide DayOfWeek;
    if Inner(v) {
      forall k | 0 <= k < 41 ensures Cell(v, k + 1) == NextDay(Cell(v, k)) { CellNext(v, k); }
    } else if v == View(1, 1) {
      FirstView();
    } else {
      LastView();
    }
  }

  /** January of year 1 begins on a Monday, and its grid begins with a second 31 January. */
  lemma FirstView()
    ensures Cell(View(1, 1), 0) == Date(1, 1, 31) && Cell(View(1, 1), 1) == Date(1, 1, 1) && !Consecutive(View(1, 1))
  {
    assert DayOfWeek(1, 1, 1) == 1;
    assert NextDay(Cell(View(1, 1), 0)) == Date(1, 2, 1);
    assert Cell(View(1, 1), 0 + 1) == Date(1, 1, 1);
  }

  /** The grid of December 9999 ends with December again. */
  lemma LastView()
    ensures !Consecutive(View(9999, 12))
  {
    var v := View(9999, 12);
    assert DayOfWeek(9999, 12, 1) == 3;
    assert Cell(v, 33) == Date(9999, 12, 31);
    assert Cell(v, 33 + 1) == Date(9999, 12, 1);
    assert NextDay(Cell(v, 33)) == Date(10000, 1, 1);
  }

  /** The drawing loop: 42 cells, row by row. */
  method FillGrid(year: nat, month: nat) returns (cells: seq<Date>)
    requires IsView(View(year, month))
    ensures |cells| == 42 && forall k :: 0 <= k < 42 ==> cells[k] == Cell(View(year, month), k)
  {
    hide DayOfWeek, Cell;
    cells := [];
    for r := 0 to 6
      invariant |cells| == 7 * r && forall k :: 0 <= k < |cells| ==> cells[k] == Cell(View(year, month), k)
    {
      for c := 0 to 7
        invariant |cells| == 7 * r + c && forall k :: 0 <= k < |cells| ==> cells[k] == Cell(View(year, month), k)
      {
        var d := CellAt(year, month, r, c);
        cells := cells + [d];
      }
    }
  }

  /** The cell arithmetic shared by drawing and clicking. */
  method CellAt(year: nat, month: nat, r: nat, c: nat) returns (d: Date)
    requires IsView(View(year, month))
    ensures d == Cell(View(year, month), 7 * r + c)
  {
    hide DayOfWeek;
    var firstDow := DayOfWeek(year, month, 1);
    var monthDays := DaysInMonth(year, month);
    var prevYear, prevMonth := Step(year, month, -1);
    var prevDays := DaysInMonth(prevYear, prevMonth);
    var ord := r * 7 + c - firstDow;
    if ord < 0 {
      d := Date(prevYear, prevMonth, Natural(prevDays + ord + 1));
    } else if ord >= monthDays {
      var nextYear, nextMonth := Step(year, month, 1);
      d := Date(nextYear, nextMonth, ord - monthDays + 1);
    } else {
      d := Date(year, month, ord + 1);
    }
  }

  // ----- stepping the selection -----

  const LAST_DAY: int := 3_652_059

  lemma {:induction false} YearsGrow(a: nat, b: nat)
    requires a <= b
    ensures 365 * a + Leaps(a) <= 365 * b + Leaps(b)
    decreases b - a
  {
    hide Leaps, Leap;
    if a < b {
      LeapsStep(a + 1);
      YearsGrow(a + 1, b);
    }
  }

  lemma LeapsBounds()
    ensures Leaps(0) == 0 && 365 * 9999 + Leaps(9999) == LAST_DAY
  {
  }

  /** Dates of years 1 to 9999 have ordinals 1 to 3652059. */
  lemma OrdinalRange(d: Date)
    requires IsDate(d) && d.year <= 9999
    ensures 1 <= Ordinal(d) <= LAST_DAY
  {
    hide Leaps, Leap;
    LeapsBounds();
    LeapsStep(d.year);
    YearsGrow(0, d.year - 1);
    YearsGrow(d.year, 9999);
    DayOfYear(d);
  }

  lemma DayOfYear(d: Date)
    requires IsDate(d)
    ensures var n := Before(d.month) + (if d.month > 2 && Leap(d.year) then 1 else 0) + d.day;
            1 <= n <= if Leap(d.year) then 366 else 365
  {
  }

  lemma EdgeDays()
    ensures Ordinal(Date(1, 1, 1)) == 1 && Ordinal(Date(9999, 12, 31)) == LAST_DAY
  {
  }

  /** One day on; at the last day the year stays as it is. */
  function Forward(d: Date): (r: Date)
  {
    if d.day < DaysInMonth(d.year, d.month) then d.(day := d.day + 1)
    else if d.month < 12 then Date(d.year, d.month + 1, 1)
    else Date(if d.year < 9999 then d.year + 1 else d.year, 1, 1)
  }

  /** A step forward is the next day, except that 31 December 9999 is followed by 1 January 9999. */
  lemma ForwardIsNext(d: Date)
    requires IsDate(d) && d.year <= 9999
    ensures IsDate(Forward(d)) && Forward(d).year <= 9999
    ensures if d == Date(9999, 12, 31) then Forward(d) == Date(9999, 1, 1) else Forward(d) == NextDay(d)
  {
    hide Leap;
  }

  /** Step a date by days, one at a time; at either end of the calendar the year stays as it is. */
  method StepByDays(start: Date, delta: int) returns (d: Date)
    requires IsDate(start) && start.year <= 9999
    ensures IsDate(d) && d.year <= 9999
    ensures Ordinal(d) == Ordinal(start) + delta <==> 1 <= Ordinal(start) + delta <= LAST_DAY
  {
    hide Ordinal, Leap;
    d := start;
    EdgeDays();
    ghost var target := Ordinal(start) + delta;
    var days := delta;
    while days > 0
      invariant IsDate(d) && d.year <= 9999 && (delta >= 0 ==> days >= 0) && (delta <= 0 ==> days == delta)
      invariant target <= LAST_DAY || delta <= 0 ==> Ordinal(d) + days == target
    {
      OrdinalNext(d);
      OrdinalRange(d);
      ForwardIsNext(d);
      if d.day < DaysInMonth(d.year, d.month) {
        d := d.(day := d.day + 1);
      } else {
        d := d.(day := 1);
        if d.month < 12 {
          d := d.(month := d.month + 1);
        } else {
          d := d.(month := 1);
          if d.year < 9999 { d := d.(year := d.year + 1); }
        }
      }
      days := days - 1;
    }
    while days < 0
      invariant IsDate(d) && d.year <= 9999 && (delta >= 0 ==> days == 0) && days <= 0
      invariant (if delta >= 0 then target <= LAST_DAY else target >= 1) ==> Ordinal(d) + days == target
    {
      d := PreviousDay(d);
      days := days + 1;
    }
    OrdinalRange(d);
  }

  method PreviousDay(d: Date) returns (p: Date)
    requires IsDate(d) && d.year <= 9999
    ensures IsDate(p) && p.year <= 9999 && (d == Date(1, 1, 1) || (NextDay(p) == d && Ordinal(p) == Ordinal(d) - 1))
  {
    hide Ordinal;
    if d.day > 1 {
      p := d.(day := d.day - 1);
    } else {
      var y, m := d.year, d.month - 1;
      if d.month == 1 {
        m := 12;
        if y > 1 { y := y - 1; }
      }
      MonthLength(y, m);
      p := Date(y, m, DaysInMonth(y, m));
    }
    OrdinalNext(p);
  }
}
