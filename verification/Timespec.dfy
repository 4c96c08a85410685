/** Exact arithmetic on seconds and nanoseconds, and the deadline of a timed wait. */
module Timespecs {
  const MILLION := 1_000_000
  const BILLION := 1_000_000_000

  datatype Timespec = Timespec(sec: int, nsec: int)

  predicate Normal(t: Timespec) {
    0 <= t.nsec < BILLION
  }

  function Nanos(t: Timespec): int {
    t.sec * BILLION + t.nsec
  }

  /** `comp_timespec` */
  function Compare(a: Timespec, b: Timespec): int {
    if a.sec > b.sec || (a.sec == b.sec && a.nsec > b.nsec) then 1
    else if a.sec == b.sec && a.nsec == b.nsec then 0
    else -1
  }

  /** `diff_timespec` */
  function Diff(a: Timespec, b: Timespec): Timespec {
    if a.nsec < b.nsec then Timespec(a.sec - 1 - b.sec, BILLION + a.nsec - b.nsec)
    else Timespec(a.sec - b.sec, a.nsec - b.nsec)
  }

  /** `add_timespec`; the nanoseconds are not negative, so that division truncates and floors alike. */
  function Add(a: Timespec, b: Timespec): Timespec
    requires Normal(a) && Normal(b)
  {
    Timespec(a.sec + b.sec + (a.nsec + b.nsec) / BILLION, (a.nsec + b.nsec) % BILLION)
  }

  /** `timespec2ms`, for a time that is not negative */
  function ToMillis(t: Timespec): int {
    t.sec * 1000 + t.nsec / MILLION
  }

  /** The interval that `CreateTimer` stores for a number of milliseconds. */
  function FromMillis(ms: nat): Timespec {
    Timespec(ms / 1000, ms % 1000 * MILLION)
  }

  /** On normalised times, comparison, difference and sum are those of integer nanoseconds, the results are
      normalised, and subtraction undoes addition. */
  lemma AgreesWithNanos(a: Timespec, b: Timespec)
    requires Normal(a) && Normal(b)
    ensures Normal(Add(a, b)) && Nanos(Add(a, b)) == Nanos(a) + Nanos(b)
    ensures Normal(Diff(a, b)) && Nanos(Diff(a, b)) == Nanos(a) - Nanos(b)
    ensures Compare(a, b) == if Nanos(a) > Nanos(b) then 1 else if Nanos(a) == Nanos(b) then 0 else -1
    ensures Diff(Add(a, b), b) == a
  {
  }

  /** The stored interval is normalised, lasts exactly the requested time, and converts back to it. */
  lemma IntervalRoundTrip(ms: nat)
    ensures Normal(FromMillis(ms)) && Nanos(FromMillis(ms)) == ms * 1_000_000 && ToMillis(FromMillis(ms)) == ms
  {
  }

  /** Milliseconds are whole ones, rounded down. */
  lemma ToMillisNanos(t: Timespec)
    requires Normal(t) && t.sec >= 0
    ensures ToMillis(t) == Nanos(t) / MILLION
  {
  }

  // ---------- sleeping until the top timer is due ----------

  const WORD := 0x1_0000_0000

  /** The sleep time in microseconds, as computed in 64 bits. */
  function SleepMicros(expiry: Timespec, now: Timespec): int {
    var diff := Diff(expiry, now);
    diff.nsec / 1000 + diff.sec * MILLION
  }

  /** ... and as passed on in an unsigned 32-bit variable. */
  function SleepTime(expiry: Timespec, now: Timespec): nat {
    SleepMicros(expiry, now) % WORD
  }

  /** The absolute deadline of `WaitOnObject(waitTime)` entered at `sec` seconds and `usec` microseconds. */
  function Deadline(sec: int, usec: nat, waitTime: nat): Timespec {
    Timespec(sec + (usec + waitTime) / MILLION, (usec + waitTime) % MILLION * 1000)
  }

  lemma DeadlineNanos(sec: int, usec: nat, waitTime: nat)
    ensures Normal(Deadline(sec, usec, waitTime))
    ensures Nanos(Deadline(sec, usec, waitTime)) == sec * BILLION + (usec + waitTime) * 1000
  {
  }

  /** The sleep time is the time until the expiry in whole microseconds, modulo 2^32. */
  lemma SleepTimeNanos(expiry: Timespec, now: Timespec)
    requires Normal(expiry) && Normal(now)
    ensures SleepMicros(expiry, now) == (Nanos(expiry) - Nanos(now)) / 1000
    ensures SleepTime(expiry, now) == (Nanos(expiry) - Nanos(now)) / 1000 % 0x1_0000_0000
  {
  }

  /** For a timer that expires `wait` nanoseconds after the one clock reading, the deadline of a wait entered at the
      other one is normalised and comes as many whole microseconds later, modulo 2^32. So it is never later than
      the expiry plus the time between the two readings, and it is less than a microsecond early if and only if
      the number of microseconds fits 32 bits. */
  lemma NoOversleep(expiry: Timespec, now: Timespec, sec: int, usec: nat)
    requires Normal(expiry) && Normal(now) && Nanos(expiry) > Nanos(now) && usec < MILLION
    ensures var deadline, entered := Deadline(sec, usec, SleepTime(expiry, now)), sec * BILLION + usec * 1000;
      var wait := Nanos(expiry) - Nanos(now);
      && Normal(deadline) && Nanos(deadline) == entered + wait / 1000 % 0x1_0000_0000 * 1000
      && Nanos(deadline) <= entered + wait
      && (Nanos(deadline) > entered + wait - 1000 <==> wait < 0x1_0000_0000 * 1000)
  {
    SleepTimeNanos(expiry, now);
    DeadlineNanos(sec, usec, SleepTime(expiry, now));
  }
}
