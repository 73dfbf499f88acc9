/** The weekly unlock clock of server/server.go: `NextUpdate` and `WeeksPassed`.
    Instants are integers counting nanoseconds (the unit of Go's `time.Duration`);
    one unlock period is a fixed seven-day step. */
module Schedule {

  type Time = int

  const NanosPerSecond: int := 1_000_000_000
  /** Length of one week: `AddDate(0, 0, 7)` and `Hours() / 24 / 7` both step by it. */
  const Week: int := 7 * 24 * 60 * 60 * NanosPerSecond

  /** `t` is one of the unlock instants `start + k * Week` with `k >= 0`. */
  predicate IsUnlockTime(t: Time, start: Time) {
    t >= start && (t - start) % Week == 0
  }

  /** Reference definition of the next unlock: the first instant of the
      weekly cadence that lies strictly after `now`. */
  function FirstUnlockAfter(now: Time, start: Time): (t: Time)
    ensures t > now
    ensures IsUnlockTime(t, start)
    ensures t == start || t - Week <= now
  {
    if now < start then start
    else
      var k := (now - start) / Week + 1;
      assert (k * Week - Week) % Week == 0 by {
        assert k * Week - Week == (k - 1) * Week;
      }
      start + k * Week
  }

  /** No unlock instant lies in the half-open gap between `now` and
      `FirstUnlockAfter(now, start)`: it is the least candidate after `now`. */
  lemma {:induction false} FirstUnlockAfterIsLeast(now: Time, start: Time, t: Time)
    requires IsUnlockTime(t, start) && t > now
    ensures FirstUnlockAfter(now, start) <= t
  {
    var f := FirstUnlockAfter(now, start);
    if f != start {
      var m := (t - start) / Week;
      var k := (f - start) / Week;
      assert t == start + m * Week;
      assert f == start + k * Week;
      assert f - Week == start + (k - 1) * Week;
      // start + (k - 1) * Week <= now < t = start + m * Week
      assert (k - 1) * Week < m * Week;
      assert k - 1 < m;
      assert k * Week <= m * Week;
    }
  }

  /** The three properties in FirstUnlockAfter's contract pin the instant down. */
  lemma {:induction false} FirstUnlockAfterUnique(now: Time, start: Time, t: Time)
    requires t > now && IsUnlockTime(t, start)
    requires t == start || t - Week <= now
    ensures t == FirstUnlockAfter(now, start)
  {
    var f := FirstUnlockAfter(now, start);
    FirstUnlockAfterIsLeast(now, start, t);
    if t != start {
      // t - Week is itself an unlock instant, and it is not after now
      assert t - Week - start == (t - start) - Week;
      assert f > t - Week;
      var m := (t - start) / Week;
      var k := (f - start) / Week;
      assert t == start + m * Week;
      assert f == start + k * Week;
      assert (m - 1) * Week < k * Week;
      assert m - 1 < k;
    }
  }

  /** Steps forward from `start` one week at a time until the candidate is
      strictly after `now` (server/server.go, `NextUpdate`). */
  method NextUpdate(now: Time, start: Time) returns (next: Time)
    ensures next == FirstUnlockAfter(now, start)
    ensures now < start ==> next == start
  {
    next := start;
    ghost var k: nat := 0;
    while next <= now
      invariant next == start + k * Week
      invariant k > 0 ==> next - Week <= now
      decreases now - next
    {
      next := next + Week;
      k := k + 1;
    }
    assert next - start == k * Week;
    FirstUnlockAfterUnique(now, start, next);
  }

  /** Number of whole weeks elapsed since `from`, or the sentinel -1 before it
      (server/server.go, `WeeksPassed`). */
  function WeeksPassed(now: Time, from: Time): (w: int)
    ensures w == -1 <==> now < from
    ensures now >= from ==> w >= 0 && from + w * Week <= now < from + (w + 1) * Week
  {
    if now < from then -1 else (now - from) / Week
  }

  /** A visitor never sees the week count go backwards as time moves on. */
  lemma {:induction false} WeeksPassedMonotone(now1: Time, now2: Time, from: Time)
    requires now1 <= now2
    ensures WeeksPassed(now1, from) <= WeeksPassed(now2, from)
  {
    var w1, w2 := WeeksPassed(now1, from), WeeksPassed(now2, from);
    if now1 >= from {
      assert w1 * Week < (w2 + 1) * Week;
    }
  }

  /** Once the game has started, the next unlock is the start of week
      `WeeksPassed + 1`: the two functions of the clock agree. */
  lemma {:induction false} NextUnlockFollowsWeeksPassed(now: Time, start: Time)
    requires now >= start
    ensures FirstUnlockAfter(now, start) == start + (WeeksPassed(now, start) + 1) * Week
  {
    var w := WeeksPassed(now, start);
    var t := start + (w + 1) * Week;
    assert t - Week == start + w * Week;
    assert (t - start) % Week == 0 by {
      assert t - start == (w + 1) * Week;
    }
    FirstUnlockAfterUnique(now, start, t);
  }

  /** The next unlock never moves backwards as time moves on. */
  lemma {:induction false} FirstUnlockAfterMonotone(now1: Time, now2: Time, start: Time)
    requires now1 <= now2
    ensures FirstUnlockAfter(now1, start) <= FirstUnlockAfter(now2, start)
  {
    var t2 := FirstUnlockAfter(now2, start);
    FirstUnlockAfterIsLeast(now1, start, t2);
  }
}
