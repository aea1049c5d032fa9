/** The Gregorian calendar as far as the end of a permanent block needs it. */
module Calendar {
  import opened Records

  const SECOND: int := 1_000_000_000

  predicate Leap(year: nat) {
    year % 4 == 0 && (year % 100 != 0 || year % 400 == 0)
  }

  /** Days from the first day of year 1 to the first day of `year`. */
  function DaysBefore(year: nat): nat {
    if year <= 1 then 0 else DaysBefore(year - 1) + if Leap(year - 1) then 366 else 365
  }

  /** The start of the last second of `year`, counted from the first instant of year 1. */
  function LastSecondOf(year: nat): Instant {
    (DaysBefore(year + 1) * 24 * 60 * 60 - 1) * SECOND
  }

  lemma LeapDays(year: nat)
    requires year >= 1
    ensures year / 4 == (year - 1) / 4 + if year % 4 == 0 then 1 else 0
    ensures year / 100 == (year - 1) / 100 + if year % 100 == 0 then 1 else 0
    ensures year / 400 == (year - 1) / 400 + if year % 400 == 0 then 1 else 0
  {
  }

  lemma CenturiesNest(year: nat)
    ensures year % 400 == 0 ==> year % 100 == 0
    ensures year % 100 == 0 ==> year % 4 == 0
  {
    if year % 400 == 0 {
      assert year == 100 * (4 * (year / 400));
    }
    if year % 100 == 0 {
      assert year == 4 * (25 * (year / 100));
    }
  }

  lemma {:induction false} DaysInClosedForm(year: nat)
    requires year >= 1
    ensures DaysBefore(year) == 365 * (year - 1) + (year - 1) / 4 - (year - 1) / 100 + (year - 1) / 400
  {
    if year == 1 {
    } else {
      DaysInClosedForm(year - 1);
      OneMoreYear(year - 1);
    }
  }

  /** A year is a leap year by as many of the three rules as change their count. */
  lemma OneMoreYear(year: nat)
    requires year >= 1
    ensures (if Leap(year) then 1 else 0)
         == (year / 4 - (year - 1) / 4) - (year / 100 - (year - 1) / 100) + (year / 400 - (year - 1) / 400)
  {
    LeapDays(year);
    CenturiesNest(year);
  }
}
