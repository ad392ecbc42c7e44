/**
 Civil dates and instants (crates/barista-cli/src/wake.rs, `days_from_civil`, the calendar
 checks and the final sum of `parse_rfc3339`).

 Every year of the proleptic Gregorian calendar, before year zero included.
 */
module Civil {
  datatype Date = Date(year: int, month: int, day: int)

  /** Division as the source's language does it. */
  function Quot(a: int, b: int): int
    requires b > 0
  {
    if a >= 0 then a / b else -(-a / b)
  }

  function Rem(a: int, b: int): int
    requires b > 0
  {
    a - b * Quot(a, b)
  }

  predicate Leap(year: int) {
    Rem(year, 4) == 0 && (Rem(year, 100) != 0 || Rem(year, 400) == 0)
  }

  function DaysInMonth(year: int, month: int): int {
    if month == 1 || month == 3 || month == 5 || month == 7 || month == 8 || month == 10 || month == 12 then 31
    else if month == 4 || month == 6 || month == 9 || month == 11 then 30
    else if Leap(year) then 29 else 28
  }

  predicate Valid(d: Date) {
    1 <= d.month <= 12 && 1 <= d.day <= DaysInMonth(d.year, d.month)
  }

  /** The closed form. */
  function DaysFromCivil(d: Date): int {
    var y := if d.month <= 2 then d.year - 1 else d.year;
    var era := Quot(if y >= 0 then y else y - 399, 400);
    var yoe := y - era * 400;
    var doy := Quot(153 * (d.month + if d.month > 2 then -3 else 9) + 2, 5) + d.day - 1;
    var doe := yoe * 365 + Quot(yoe, 4) - Quot(yoe, 100) + doy;
    era * 146097 + doe - 719468
  }

  // ---------------------------------------------------------------------------
  // The day-by-day count
  // ---------------------------------------------------------------------------

  const Epoch := Date(1970, 1, 1)

  function Tomorrow(d: Date): Date {
    if d.day < DaysInMonth(d.year, d.month) then d.(day := d.day + 1)
    else if d.month < 12 then Date(d.year, d.month + 1, 1)
    else Date(d.year + 1, 1, 1)
  }

  function Yesterday(d: Date): Date {
    if d.day > 1 then d.(day := d.day - 1)
    else if d.month > 1 then Date(d.year, d.month - 1, DaysInMonth(d.year, d.month - 1))
    else Date(d.year - 1, 12, 31)
  }

  /** The date reached from 1970-01-01 one day at a time. */
  function Walk(n: int): (d: Date)
    ensures Valid(d)
    decreases if n >= 0 then n else -n
  {
    if n == 0 then Epoch else if n > 0 then Tomorrow(Walk(n - 1)) else Yesterday(Walk(n + 1))
  }

  lemma TomorrowUndoesYesterday(d: Date)
    requires Valid(d)
    ensures Valid(Tomorrow(d)) && Yesterday(Tomorrow(d)) == d
    ensures Valid(Yesterday(d)) && Tomorrow(Yesterday(d)) == d
  {
  }

  // ---------------------------------------------------------------------------
  // Years
  // ---------------------------------------------------------------------------

  /** Days before 1 March of a year, counting from 1 March of year zero. */
  function MarchFirst(y: int): int {
    365 * y + y / 4 - y / 100 + y / 400
  }

  /** The era arithmetic is a floor, also below zero. */
  lemma EraIsFloor(y: int)
    ensures var era := Quot(if y >= 0 then y else y - 399, 400); era == y / 400 && 0 <= y - era * 400 < 400
  {
  }

  lemma EraSum(era: int, yoe: int)
    requires 0 <= yoe < 400
    ensures MarchFirst(era * 400 + yoe) == era * 146097 + yoe * 365 + yoe / 4 - yoe / 100
  {
    var y := era * 400 + yoe;
    assert y / 400 == era;
    assert y / 100 == era * 4 + yoe / 100;
    assert y / 4 == era * 100 + yoe / 4;
  }

  function MonthStart(month: int): int {
    Quot(153 * (month + if month > 2 then -3 else 9) + 2, 5)
  }

  lemma ClosedForm(d: Date)
    ensures DaysFromCivil(d) ==
            MarchFirst(if d.month <= 2 then d.year - 1 else d.year) + MonthStart(d.month) + d.day - 1 - 719468
  {
    var y := if d.month <= 2 then d.year - 1 else d.year;
    EraIsFloor(y);
    EraSum(y / 400, y - y / 400 * 400);
  }

  lemma LeapIsExact(year: int)
    ensures Leap(year) <==> year % 4 == 0 && (year % 100 != 0 || year % 400 == 0)
  {
    RemIsZero4(year);
    RemIsZero100(year);
    RemIsZero400(year);
  }

  /** The truncating remainder vanishes exactly where the Euclidean one does. */
  lemma RemIsZero4(a: int)
    ensures Rem(a, 4) == 0 <==> a % 4 == 0
  {
    var q, r := a / 4, a % 4;
    assert a == 4 * q + r;
    if a < 0 && r != 0 {
      assert -a == 4 * (-q - 1) + (4 - r);
      assert -a / 4 == -q - 1;
    } else if a < 0 {
      assert -a / 4 == -q;
    }
  }

  lemma RemIsZero100(a: int)
    ensures Rem(a, 100) == 0 <==> a % 100 == 0
  {
    var q, r := a / 100, a % 100;
    assert a == 100 * q + r;
    if a < 0 && r != 0 {
      assert -a == 100 * (-q - 1) + (100 - r);
      assert -a / 100 == -q - 1;
    } else if a < 0 {
      assert -a / 100 == -q;
    }
  }

  lemma RemIsZero400(a: int)
    ensures Rem(a, 400) == 0 <==> a % 400 == 0
  {
    var q, r := a / 400, a % 400;
    assert a == 400 * q + r;
    if a < 0 && r != 0 {
      assert -a == 400 * (-q - 1) + (400 - r);
      assert -a / 400 == -q - 1;
    } else if a < 0 {
      assert -a / 400 == -q;
    }
  }

  /** From one 1 March to the next there is a leap day exactly if the later year has one. */
  lemma MarchToMarch(y: int)
    ensures MarchFirst(y + 1) - MarchFirst(y) == if Leap(y + 1) then 366 else 365
  {
    LeapIsExact(y + 1);
    Carry4(y);
    Carry100(y);
    Carry400(y);
  }

  lemma Carry4(y: int)
    ensures (y + 1) / 4 - y / 4 == if (y + 1) % 4 == 0 then 1 else 0
  {
  }

  lemma Carry100(y: int)
    ensures (y + 1) / 100 - y / 100 == if (y + 1) % 100 == 0 then 1 else 0
    ensures (y + 1) % 100 == 0 ==> (y + 1) % 4 == 0
  {
  }

  lemma Carry400(y: int)
    ensures (y + 1) / 400 - y / 400 == if (y + 1) % 400 == 0 then 1 else 0
    ensures (y + 1) % 400 == 0 ==> (y + 1) % 100 == 0
  {
  }

  /** The month offsets are the running sums of the month lengths from March. */
  lemma MonthToMonth(year: int, month: int)
    requires 1 <= month <= 12 && month != 2
    ensures month < 12 ==> MonthStart(month + 1) == MonthStart(month) + DaysInMonth(year, month)
    ensures month == 12 ==> MonthStart(1) == MonthStart(12) + 31
  {
  }

  lemma TheTurnOfMarch()
    ensures MonthStart(3) == 0 && MonthStart(1) == 306 && MonthStart(2) == 337
  {
  }

  // ---------------------------------------------------------------------------
  // The main results
  // ---------------------------------------------------------------------------

  /** Consecutive dates are consecutive integers. */
  lemma TomorrowIsOneMore(d: Date)
    requires Valid(d)
    ensures DaysFromCivil(Tomorrow(d)) == DaysFromCivil(d) + 1
  {
    ClosedForm(d);
    ClosedForm(Tomorrow(d));
    if d.day == DaysInMonth(d.year, d.month) {
      TheTurnOfMarch();
      if d.month == 2 {
        MarchToMarch(d.year - 1);
      } else {
        MonthToMonth(d.year, d.month);
      }
    }
  }

  lemma EpochIsZero()
    ensures DaysFromCivil(Epoch) == 0
  {
  }

  /** The closed form is the day-by-day count, forwards and backwards. */
  lemma {:induction false} ClosedFormCounts(n: int)
    ensures DaysFromCivil(Walk(n)) == n
    decreases if n >= 0 then n else -n
  {
    if n == 0 {
      EpochIsZero();
    } else if n > 0 {
      ClosedFormCounts(n - 1);
      TomorrowIsOneMore(Walk(n - 1));
    } else {
      ClosedFormCounts(n + 1);
      TomorrowUndoesYesterday(Walk(n + 1));
      TomorrowIsOneMore(Walk(n));
    }
  }

  predicate Earlier(a: Date, b: Date) {
    a.year < b.year || (a.year == b.year && (a.month < b.month || (a.month == b.month && a.day < b.day)))
  }

  /** How far a date is from the end of its year. */
  function DaysLeft(d: Date): nat
    requires Valid(d)
  {
    (12 - d.month) * 31 + (31 - d.day)
  }

  lemma TomorrowIsNext(a: Date, b: Date)
    requires Valid(a) && Valid(b)
    ensures Earlier(a, Tomorrow(a))
    ensures Earlier(a, b) ==> Tomorrow(a) == b || Earlier(Tomorrow(a), b)
  {
  }

  lemma TomorrowIsNearer(a: Date, b: Date)
    requires Valid(a) && Valid(b) && Earlier(a, b) && Tomorrow(a) != b
    ensures b.year >= Tomorrow(a).year && Valid(Tomorrow(a)) && Tomorrow(a).year >= a.year
    ensures Tomorrow(a).year == a.year ==> DaysLeft(Tomorrow(a)) < DaysLeft(a)
  {
    TomorrowIsNext(a, b);
  }

  /** Calendar order is integer order. */
  lemma {:induction false} EarlierIsLess(a: Date, b: Date)
    requires Valid(a) && Valid(b) && Earlier(a, b)
    ensures DaysFromCivil(a) < DaysFromCivil(b)
    decreases b.year - a.year, DaysLeft(a)
  {
    TomorrowIsOneMore(a);
    if Tomorrow(a) != b {
      TomorrowIsNext(a, b);
      TomorrowIsNearer(a, b);
      EarlierIsLess(Tomorrow(a), b);
    }
  }

  lemma OrderIsKept(a: Date, b: Date)
    requires Valid(a) && Valid(b)
    ensures Earlier(a, b) <==> DaysFromCivil(a) < DaysFromCivil(b)
    ensures a == b <==> DaysFromCivil(a) == DaysFromCivil(b)
  {
    if Earlier(a, b) {
      EarlierIsLess(a, b);
    } else if a != b {
      EarlierIsLess(b, a);
    }
  }

  /** Every valid date, of any year, is the date its number of days walks to. */
  lemma EveryDateIsCounted(d: Date)
    requires Valid(d)
    ensures Walk(DaysFromCivil(d)) == d
  {
    ClosedFormCounts(DaysFromCivil(d));
    OrderIsKept(Walk(DaysFromCivil(d)), d);
  }

  // ---------------------------------------------------------------------------
  // Instants
  // ---------------------------------------------------------------------------

  datatype Time = Time(date: Date, hour: int, minute: int, second: int)

  predicate Real(t: Time) {
    Valid(t.date) && 0 <= t.hour < 24 && 0 <= t.minute < 60 && 0 <= t.second < 60
  }

  /** The final sum. */
  function Instant(t: Time, offset: int): int {
    DaysFromCivil(t.date) * 86400 + t.hour * 3600 + t.minute * 60 + t.second - offset
  }

  function Clock(t: Time): int {
    t.hour * 3600 + t.minute * 60 + t.second
  }

  predicate Before(a: Time, b: Time) {
    Earlier(a.date, b.date) ||
    (a.date == b.date &&
     (a.hour < b.hour || (a.hour == b.hour && (a.minute < b.minute || (a.minute == b.minute && a.second < b.second)))))
  }

  /** Real times in UTC keep their order, and different ones are different instants. */
  lemma InstantsKeepOrder(a: Time, b: Time)
    requires Real(a) && Real(b)
    ensures Before(a, b) <==> Instant(a, 0) < Instant(b, 0)
    ensures a == b <==> Instant(a, 0) == Instant(b, 0)
  {
    OrderIsKept(a.date, b.date);
    assert 0 <= Clock(a) < 86400 && 0 <= Clock(b) < 86400;
  }
}
