/** Time as the pages see it: an instant is a `Date.getTime()` value in
    milliseconds, and a calendar date (`'yyyy-MM-dd'`, what `parseISO` reads as the
    start of that day) is a day number counted from the epoch. One time zone is
    assumed throughout. */
module Clock {

  const DayMs: int := 86400000

  /** The calendar day that contains instant `t`. */
  function DayOf(t: int): int
  {
    t / DayMs
  }

  /** The first instant of day `d` (`parseISO('yyyy-MM-dd')`). */
  function Midnight(d: int): int
  {
    d * DayMs
  }

  /** `date.setDate(date.getDate() + n)`: the same time of day, `n` days later. */
  function AddDays(t: int, n: int): int
  {
    t + n * DayMs
  }

  /** An instant lies between the midnight of its day and the next midnight. */
  lemma DayBounds(t: int)
    ensures Midnight(DayOf(t)) <= t < Midnight(DayOf(t) + 1)
  {
  }

  /** Adding `n` days moves the calendar day by exactly `n`. */
  lemma DayOfAddDays(t: int, n: int)
    ensures DayOf(AddDays(t, n)) == DayOf(t) + n
  {
    assert AddDays(t, n) == (DayOf(t) + n) * DayMs + t % DayMs;
  }

  /** An instant is on day `d` exactly when it lies in `[Midnight(d), Midnight(d + 1))`. */
  lemma OnDayIff(t: int, d: int)
    ensures DayOf(t) == d <==> Midnight(d) <= t < Midnight(d + 1)
  {
    DayBounds(t);
  }
}
