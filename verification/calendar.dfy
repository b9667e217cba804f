/** Calendar days as integers: day 0 is 1970-01-01 (a Thursday), and a
  timestamp is a count of seconds since 1970-01-01T00:00:00.
*/
module Calendar {

  const SecondsPerDay: int := 86400

  /** The calendar day of a timestamp: the flooring that `pd.Grouper(freq='D')`
      applies (Dafny's `/` is Euclidean, which floors for a positive divisor). */
  function DayOf(ts: int): (d: int)
    ensures d * SecondsPerDay <= ts < (d + 1) * SecondsPerDay
  {
    ts / SecondsPerDay
  }

  /** pandas `dayofweek`: Monday is 0 and Sunday is 6. */
  function Weekday(d: int): (w: int)
    ensures 0 <= w < 7
  {
    (d + 3) % 7
  }

  /** Lemma: 1970-01-01 was a Thursday, the weekday advances by one a day
      (Sunday to Monday), and it repeats every seven days, also before 1970. */
  lemma WeekdayCycle(d: int)
    ensures Weekday(0) == 3
    ensures Weekday(d + 1) == (Weekday(d) + 1) % 7
    ensures Weekday(d + 7) == Weekday(d) && Weekday(d - 7) == Weekday(d)
  {
  }

  /** `pd.date_range(start, periods=n, freq='D')`: `n` consecutive days,
      ascending, from `start`. */
  function DateRange(start: int, periods: nat): (r: seq<int>)
    ensures |r| == periods
    ensures periods > 0 ==> r[0] == start && r[periods - 1] == start + periods - 1
    ensures forall i :: 0 < i < periods ==> r[i] == r[i - 1] + 1
    ensures forall i :: 0 <= i < periods ==> r[i] == start + i
  {
    seq(periods, i => start + i)
  }
}
