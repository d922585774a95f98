/**
 * Proleptic Gregorian dates and date-times as Python's `datetime` module
 * represents them (years 1 to 9999), with their chronological order.
 */
module Calendar {

  datatype Date = Date(year: int, month: int, day: int)

  /** A date-time: a date and the microseconds elapsed since its midnight. */
  datatype DateTime = DateTime(date: Date, micros: nat)

  const MicrosPerDay := 86_400_000_000

  predicate IsLeap(y: int) {
    y % 4 == 0 && (y % 100 != 0 || y % 400 == 0)
  }

  function DaysInMonth(y: int, m: int): (n: int)
    requires 1 <= m <= 12
    ensures 28 <= n <= 31
  {
    if m == 2 then (if IsLeap(y) then 29 else 28)
    else if m == 4 || m == 6 || m == 9 || m == 11 then 30
    else 31
  }

  /** The dates `datetime.date` can represent. */
  predicate ValidDate(d: Date) {
    1 <= d.year <= 9999 && 1 <= d.month <= 12 && 1 <= d.day <= DaysInMonth(d.year, d.month)
  }

  predicate ValidDateTime(t: DateTime) {
    ValidDate(t.date) && t.micros < MicrosPerDay
  }

  /** Midnight of a date, as `strptime` returns it for a date-only format. */
  function Midnight(d: Date): DateTime {
    DateTime(d, 0)
  }

  predicate DateLess(a: Date, b: Date) {
    a.year < b.year
    || (a.year == b.year && (a.month < b.month || (a.month == b.month && a.day < b.day)))
  }

  /** `<` on dates is a strict total order. */
  lemma DateLessOrder(a: Date, b: Date, c: Date)
    ensures !DateLess(a, a)
    ensures DateLess(a, b) && DateLess(b, c) ==> DateLess(a, c)
    ensures DateLess(a, b) || DateLess(b, a) || a == b
  {
  }

  /** `a <= b` on `datetime` values. */
  predicate LessEq(a: DateTime, b: DateTime) {
    DateLess(a.date, b.date) || (a.date == b.date && a.micros <= b.micros)
  }

  /** `<=` on date-times is a total order: reflexive, antisymmetric,
    * transitive and total. */
  lemma LessEqTotalOrder(a: DateTime, b: DateTime, c: DateTime)
    ensures LessEq(a, a)
    ensures LessEq(a, b) && LessEq(b, a) ==> a == b
    ensures LessEq(a, b) && LessEq(b, c) ==> LessEq(a, c)
    ensures LessEq(a, b) || LessEq(b, a)
  {
  }

  /** Comparing midnights compares the dates. */
  lemma MidnightOrder(a: Date, b: Date)
    ensures LessEq(Midnight(a), Midnight(b)) <==> DateLess(a, b) || a == b
  {
  }
}
