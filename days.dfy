/** Calendar days on millisecond timestamps, in one fixed time zone (UTC):
    `startOfDay`, `endOfDay`, the weekday, `previousSunday`, `nextSaturday`,
    `eachDayOfInterval`, and the decimal rendering of a timestamp (`toString`). */
module Days {
  import opened Common

  const DayMs: int := 86400000

  /** Midnight at the start of the day holding `t`. */
  function StartOfDay(t: Timestamp): (d: Timestamp)
    ensures d <= t < d + DayMs
    ensures d % DayMs == 0
  {
    t - t % DayMs
  }

  /** The last millisecond of the day holding `t` (23:59:59.999). */
  function EndOfDay(t: Timestamp): (e: Timestamp)
    ensures StartOfDay(e) == StartOfDay(t)
    ensures t <= e
  {
    StartOfDay(t) + DayMs - 1
  }

  /** Midnights are exactly the fixed points of `StartOfDay`. */
  lemma StartOfDayOfMidnight(d: Timestamp)
    requires d % DayMs == 0
    ensures StartOfDay(d) == d
  {
  }

  lemma StartOfDayIdempotent(t: Timestamp)
    ensures StartOfDay(StartOfDay(t)) == StartOfDay(t)
  {
    StartOfDayOfMidnight(StartOfDay(t));
  }

  /** Two timestamps lie on the same day when the day start of one is within a day of the other. */
  lemma {:induction false} SameDayIff(a: Timestamp, d: Timestamp)
    requires d % DayMs == 0
    ensures StartOfDay(a) == d <==> d <= a < d + DayMs
  {
    if d <= a < d + DayMs {
      var s := StartOfDay(a);
      if s < d {
        assert d - s < DayMs;
        MultiplesApart(s, d);
      } else if s > d {
        assert s - d < DayMs;
        MultiplesApart(d, s);
      }
    }
  }

  /** Two different midnights are at least a day apart. */
  lemma MultiplesApart(a: int, b: int)
    requires a % DayMs == 0 && b % DayMs == 0 && a < b
    ensures b - a >= DayMs
  {
    var qa, qb := a / DayMs, b / DayMs;
    assert a == qa * DayMs && b == qb * DayMs;
    assert qa < qb;
    assert b - a == (qb - qa) * DayMs;
  }

  lemma {:induction false} StartOfDayMonotone(a: Timestamp, b: Timestamp)
    requires a <= b
    ensures StartOfDay(a) <= StartOfDay(b)
  {
    var sa, sb := StartOfDay(a), StartOfDay(b);
    if sa > sb {
      MultiplesApart(sb, sa);
    }
  }

  /** `d + n` days, keeping the time of day. */
  function AddDays(t: Timestamp, n: int): Timestamp
  {
    t + n * DayMs
  }

  /** The day of the week, 0 for Sunday to 6 for Saturday (day 0 of the epoch was a Thursday). */
  function Weekday(t: Timestamp): (w: int)
    ensures 0 <= w < 7
  {
    (t / DayMs + 4) % 7
  }

  predicate IsSunday(t: Timestamp) { Weekday(t) == 0 }

  lemma {:induction false} DivAddDays(t: Timestamp, n: int)
    ensures AddDays(t, n) / DayMs == t / DayMs + n
    ensures AddDays(t, n) % DayMs == t % DayMs
  {
    var q, r := t / DayMs, t % DayMs;
    assert t == q * DayMs + r;
    assert AddDays(t, n) == (q + n) * DayMs + r;
    DivUnique(AddDays(t, n), q + n, r);
  }

  lemma DivUnique(x: int, q: int, r: int)
    requires 0 <= r < DayMs && x == q * DayMs + r
    ensures x / DayMs == q && x % DayMs == r
  {
    var q', r' := x / DayMs, x % DayMs;
    assert x == q' * DayMs + r';
    assert (q - q') * DayMs == r' - r;
  }

  lemma {:induction false} WeekdayAddDays(t: Timestamp, n: int)
    ensures Weekday(AddDays(t, n)) == (Weekday(t) + n) % 7
    ensures StartOfDay(AddDays(t, n)) == AddDays(StartOfDay(t), n)
  {
    DivAddDays(t, n);
  }

  /** A timestamp and the midnight that starts its day fall on the same weekday. */
  lemma WeekdayOfStartOfDay(t: Timestamp)
    ensures Weekday(StartOfDay(t)) == Weekday(t)
  {
    DivUnique(StartOfDay(t), t / DayMs, 0);
  }

  /** date-fns `previousSunday`: the closest Sunday strictly before `t`, same time of day. */
  function PreviousSunday(t: Timestamp): Timestamp
  {
    var delta := Weekday(t);
    AddDays(t, -(if delta <= 0 then delta + 7 else delta))
  }

  /** date-fns `nextSaturday`: the closest Saturday strictly after `t`, same time of day. */
  function NextSaturday(t: Timestamp): Timestamp
  {
    var delta := 6 - Weekday(t);
    AddDays(t, if delta <= 0 then delta + 7 else delta)
  }

  /** The midnights from `d` up to and including the last one not after `end`. */
  function DaysFrom(d: Timestamp, end: Timestamp): seq<Timestamp>
    decreases if d > end then 0 else end - d + 1
  {
    if d > end then [] else [d] + DaysFrom(d + DayMs, end)
  }

  /** date-fns `eachDayOfInterval`: one midnight per day from the day of `start` to `end`. */
  function EachDayOfInterval(start: Timestamp, end: Timestamp): seq<Timestamp>
  {
    DaysFrom(StartOfDay(start), end)
  }

  /** `DaysFrom` lists `n` consecutive midnights when `end` is in the `n`-th day. */
  lemma {:induction false} DaysFromShape(d: Timestamp, end: Timestamp, n: nat)
    requires d + (n - 1) * DayMs <= end < d + n * DayMs
    ensures |DaysFrom(d, end)| == n
    ensures forall k | 0 <= k < n :: DaysFrom(d, end)[k] == d + k * DayMs
    decreases n
  {
    if n == 0 {
      assert d > end;
    } else {
      assert d <= end;
      DaysFromShape(d + DayMs, end, n - 1);
      var rest := DaysFrom(d + DayMs, end);
      assert DaysFrom(d, end) == [d] + rest;
      forall k | 0 <= k < n ensures DaysFrom(d, end)[k] == d + k * DayMs {
        if k > 0 {
          assert DaysFrom(d, end)[k] == rest[k - 1];
        }
      }
    }
  }

  function Digit(d: int): char
    requires 0 <= d < 10
  {
    "0123456789"[d]
  }

  lemma DigitInjective(a: int, b: int)
    requires 0 <= a < 10 && 0 <= b < 10 && Digit(a) == Digit(b)
    ensures a == b
  {
  }

  /** The decimal digits of `n`, most significant first. */
  function NatString(n: nat): (s: string)
    ensures |s| >= 1
    ensures '0' <= s[0] <= '9'
    decreases n
  {
    if n < 10 then [Digit(n)] else NatString(n / 10) + [Digit(n % 10)]
  }

  /** `Number.prototype.toString()` of an integral timestamp. */
  function IntString(i: int): (s: string)
    ensures |s| >= 1
    ensures s[0] == '-' || '0' <= s[0] <= '9'
  {
    if i < 0 then "-" + NatString(-i) else NatString(i)
  }

  lemma {:induction false} NatStringInjective(a: nat, b: nat)
    requires NatString(a) == NatString(b)
    ensures a == b
    decreases a
  {
    var sa, sb := NatString(a), NatString(b);
    if a < 10 && b < 10 {
      DigitInjective(a, b);
    } else if a >= 10 && b >= 10 {
      assert sa[|sa| - 1] == Digit(a % 10) && sb[|sb| - 1] == Digit(b % 10);
      DigitInjective(a % 10, b % 10);
      assert NatString(a / 10) == sa[..|sa| - 1] == sb[..|sb| - 1] == NatString(b / 10);
      NatStringInjective(a / 10, b / 10);
    }
  }

  /** Different timestamps render differently. */
  lemma IntStringInjective(a: int, b: int)
    requires IntString(a) == IntString(b)
    ensures a == b
  {
    if a < 0 && b < 0 {
      assert NatString(-a) == IntString(a)[1..] == IntString(b)[1..] == NatString(-b);
      NatStringInjective(-a, -b);
    } else if a >= 0 && b >= 0 {
      NatStringInjective(a, b);
    }
  }
}
