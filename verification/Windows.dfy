/** A fixed-window counter in Redis: INCR, and EXPIRE when the result is 1. */
module Windows {
  import opened Sequences

  /** The key: absent, or a count that disappears at time `until`. */
  datatype Counter = Absent | Counting(count: nat, until: int)

  /** GET: an expired key reads as 0. */
  function Count(c: Counter, now: int): nat {
    if c.Absent? || c.until <= now then 0 else c.count
  }

  function Hit(c: Counter, window: nat, now: int): Counter {
    if Count(c, now) == 0 then Counting(1, now + window) else Counting(c.count + 1, c.until)
  }

  predicate Ordered(times: seq<int>) {
    forall i, j :: 0 <= i < j < |times| ==> times[i] <= times[j]
  }

  /** The key after hits at these times, from a given start. */
  function AfterFrom(c: Counter, times: seq<int>, window: nat): Counter {
    if times == [] then c else Hit(AfterFrom(c, times[..|times| - 1], window), window, times[|times| - 1])
  }

  function After(times: seq<int>, window: nat): Counter {
    AfterFrom(Absent, times, window)
  }

  /** How many hits at times in [a, b) were admitted: a hit is when the count it produces is
      within the limit. */
  function AdmittedFrom(c: Counter, times: seq<int>, window: nat, limit: nat, a: int, b: int): nat {
    if times == [] then 0
    else
      AdmittedFrom(c, times[..|times| - 1], window, limit, a, b) +
      if a <= times[|times| - 1] < b && AfterFrom(c, times, window).count <= limit then 1 else 0
  }

  /** The last hit is admitted. */
  predicate AdmitsLast(times: seq<int>, window: nat, limit: nat)
    requires times != []
  {
    After(times, window).count <= limit
  }

  function Admitted(times: seq<int>, window: nat, limit: nat, a: int, b: int): nat {
    AdmittedFrom(Absent, times, window, limit, a, b)
  }

  function Min(x: int, y: int): int {
    if x <= y then x else y
  }

  lemma {:induction false} NoneBefore(times: seq<int>, window: nat, limit: nat, a: int, b: int)
    requires Ordered(times) && (times != [] ==> times[|times| - 1] < a)
    ensures Admitted(times, window, limit, a, b) == 0
  {
    if times != [] {
      NoneBefore(times[..|times| - 1], window, limit, a, b);
    }
  }

  /** A window counts at least one hit and started at one of them. */
  lemma {:induction false} Started(times: seq<int>, window: nat)
    requires Ordered(times) && times != []
    ensures After(times, window).Counting? && 1 <= After(times, window).count
    ensures times[0] <= After(times, window).until - window <= times[|times| - 1]
  {
    assert After(times, window) == Hit(After(times[..|times| - 1], window), window, times[|times| - 1]);
    if |times| > 1 {
      Started(times[..|times| - 1], window);
    } else {
      assert After(times[..0], window) == Absent;
    }
  }

  /** How much of [a, a + window) can be used up, by where the current window started. */
  predicate Used(used: nat, c: Counter, window: nat, limit: nat, a: int) {
    && used <= 2 * limit - 1
    && (c.Absent? ==> used == 0)
    && (c.Counting? && c.until - window < a ==> used <= Min(c.count, limit) - 1)
    && (c.Counting? && a <= c.until - window < a + window ==> used <= limit - 1 + Min(c.count, limit))
  }

  lemma {:induction false} UsedBound(times: seq<int>, window: nat, limit: nat, a: int)
    requires Ordered(times) && 1 <= limit && 1 <= window
    ensures Used(Admitted(times, window, limit, a, a + window), After(times, window), window, limit, a)
  {
    if times != [] {
      var front := times[..|times| - 1];
      UsedBound(front, window, limit, a);
      if times[|times| - 1] < a {
        NoneBefore(times, window, limit, a, a + window);
      }
      if front != [] {
        Started(front, window);
      }
    }
  }

  /** Any half-open interval of one window's length admits at most 2 * limit - 1 hits: a window
      that reaches into it began, with an admitted hit, before it. */
  lemma IntervalBound(times: seq<int>, window: nat, limit: nat, a: int)
    requires Ordered(times) && 1 <= limit && 1 <= window
    ensures Admitted(times, window, limit, a, a + window) <= 2 * limit - 1
  {
    UsedBound(times, window, limit, a);
  }

  /** Hits inside the running window only count up. */
  lemma {:induction false} HitsInWindow(c: Counter, times: seq<int>, window: nat, limit: nat, a: int, b: int,
      t: int, n: nat)
    requires Count(AfterFrom(c, times, window), t) >= 1 && a <= t < b
    ensures var d, more := AfterFrom(c, times, window), times + Repeat(t, n);
            && AfterFrom(c, more, window) == Counting(d.count + n, d.until)
            && (d.count + n <= limit ==>
                  AdmittedFrom(c, more, window, limit, a, b) == AdmittedFrom(c, times, window, limit, a, b) + n)
  {
    if n == 0 {
      assert times + Repeat(t, 0) == times;
    } else {
      HitsInWindow(c, times, window, limit, a, b, t, n - 1);
      var all := times + Repeat(t, n);
      assert all[..|all| - 1] == times + Repeat(t, n - 1) && all[|all| - 1] == t;
    }
  }

  /** One hit, then limit - 1 just before its window ends, then limit in the next. */
  function Burst(window: nat, limit: nat): seq<int>
    requires 1 <= limit
  {
    [0] + Repeat(window - 1, limit - 1) + [window] + Repeat(window, limit - 1)
  }

  lemma FirstHit(c: Counter, times: seq<int>, window: nat, limit: nat, a: int, b: int, t: int)
    requires Count(AfterFrom(c, times, window), t) == 0 && 1 <= limit
    ensures AfterFrom(c, times + [t], window) == Counting(1, t + window)
    ensures AdmittedFrom(c, times + [t], window, limit, a, b)
         == AdmittedFrom(c, times, window, limit, a, b) + if a <= t < b then 1 else 0
  {
    assert (times + [t])[..|times|] == times;
  }

  /** The bound is reached, by a schedule whose every hit is admitted. */
  lemma IntervalBoundTight(window: nat, limit: nat)
    requires 1 <= limit && 2 <= window
    ensures Ordered(Burst(window, limit))
    ensures Admitted(Burst(window, limit), window, limit, 1, 1 + window) == 2 * limit - 1
  {
    FirstHit(Absent, [], window, limit, 1, 1 + window, 0);
    assert [] + [0] == [0];
    HitsInWindow(Absent, [0], window, limit, 1, 1 + window, window - 1, limit - 1);
    var first := [0] + Repeat(window - 1, limit - 1);
    FirstHit(Absent, first, window, limit, 1, 1 + window, window);
    HitsInWindow(Absent, first + [window], window, limit, 1, 1 + window, window, limit - 1);
  }

  /** Admitted hits later than `since`. */
  function AdmittedAfter(times: seq<int>, window: nat, limit: nat, since: int): nat {
    if times == [] then 0
    else
      AdmittedAfter(times[..|times| - 1], window, limit, since) +
      if since < times[|times| - 1] && AdmitsLast(times, window, limit) then 1 else 0
  }

  lemma {:induction false} WindowHits(times: seq<int>, window: nat, limit: nat, since: int)
    requires Ordered(times) && times != [] && since < After(times, window).until - window
    ensures AdmittedAfter(times, window, limit, since) >= Min(After(times, window).count, limit)
  {
    var front := times[..|times| - 1];
    Started(times, window);
    if Count(After(front, window), times[|times| - 1]) > 0 {
      WindowHits(front, window, limit, since);
    }
  }

  /** Nobody is refused without cause: a refused hit has `limit` admitted ones less than one
      window before it. */
  lemma RefusedMeansLimitReached(times: seq<int>, window: nat, limit: nat, now: int)
    requires Ordered(times) && 1 <= limit
    requires Hit(After(times, window), window, now).count > limit
    ensures AdmittedAfter(times, window, limit, now - window) >= limit
  {
    WindowHits(times, window, limit, now - window);
  }

  // ----- when one window's limit is the bound

  predicate Inside(times: seq<int>, a: int, b: int) {
    forall i :: 0 <= i < |times| ==> a <= times[i] < b
  }

  /** At time a no window is running, or the running one is used up. */
  predicate FreshOrSpent(c: Counter, a: int, limit: nat) {
    Count(c, a) == 0 || Count(c, a) >= limit
  }

  /** Either a window opened in the interval, which then lasts to its end, or nothing has
      been admitted yet. */
  predicate Spent(used: nat, c: Counter, window: nat, limit: nat, a: int) {
    || (c.Counting? && a + window <= c.until && 1 <= c.count && used <= Min(c.count, limit))
    || (used == 0 && FreshOrSpent(c, a, limit))
  }

  lemma {:induction false} SpentBound(c: Counter, times: seq<int>, window: nat, limit: nat, a: int)
    requires FreshOrSpent(c, a, limit) && Inside(times, a, a + window) && 1 <= limit
    ensures Spent(AdmittedFrom(c, times, window, limit, a, a + window), AfterFrom(c, times, window), window, limit, a)
  {
    if times != [] {
      SpentBound(c, times[..|times| - 1], window, limit, a);
    }
  }

  /** What a counter that is neither fresh nor spent still allows: the rest of the limit now,
      and the whole of it when the running window ends. */
  function Remainder(c: Counter, a: int, limit: nat): seq<int>
    requires 1 <= Count(c, a) < limit
  {
    Repeat(a, limit - c.count) + [c.until] + Repeat(c.until, limit - 1)
  }

  lemma {:induction false} RemainderNow(c: Counter, window: nat, limit: nat, a: int, b: int, n: nat)
    requires Count(c, a) >= 1 && c.count + n <= limit && a < b
    ensures AfterFrom(c, Repeat(a, n), window) == Counting(c.count + n, c.until)
    ensures AdmittedFrom(c, Repeat(a, n), window, limit, a, b) == n
  {
    if n > 0 {
      RemainderNow(c, window, limit, a, b, n - 1);
      assert Repeat(a, n)[..n - 1] == Repeat(a, n - 1);
    }
  }

  lemma RemainderExceeds(c: Counter, window: nat, limit: nat, a: int)
    requires 1 <= Count(c, a) < limit && c.until < a + window
    ensures AdmittedFrom(c, Remainder(c, a, limit), window, limit, a, a + window) == 2 * limit - c.count
  {
    var first := Repeat(a, limit - c.count);
    RemainderNow(c, window, limit, a, a + window, limit - c.count);
    FirstHit(c, first, window, limit, a, a + window, c.until);
    HitsInWindow(c, first + [c.until], window, limit, a, a + window, c.until, limit - 1);
  }

  /** At a time a, whatever the counter: the limit bounds every future within one window's
      length if and only if no window is running or the running one is used up. */
  lemma OneLimitIff(c: Counter, window: nat, limit: nat, a: int)
    requires 1 <= limit && (Count(c, a) > 0 ==> c.until < a + window)
    ensures (forall times: seq<int> :: Ordered(times) && Inside(times, a, a + window) ==>
               AdmittedFrom(c, times, window, limit, a, a + window) <= limit)
            <==> FreshOrSpent(c, a, limit)
  {
    if FreshOrSpent(c, a, limit) {
      forall times: seq<int> | Ordered(times) && Inside(times, a, a + window)
        ensures AdmittedFrom(c, times, window, limit, a, a + window) <= limit
      {
        SpentBound(c, times, window, limit, a);
      }
    } else {
      RemainderExceeds(c, window, limit, a);
      assert Ordered(Remainder(c, a, limit));
    }
  }

  lemma {:induction false} HistorySplits(before: seq<int>, times: seq<int>, window: nat, limit: nat, a: int)
    requires forall i :: 0 <= i < |before| ==> before[i] < a
    ensures After(before + times, window) == AfterFrom(After(before, window), times, window)
    ensures Admitted(before + times, window, limit, a, a + window)
         == AdmittedFrom(After(before, window), times, window, limit, a, a + window)
    decreases |before| + |times|
  {
    if times != [] {
      var all := before + times;
      assert all[..|all| - 1] == before + times[..|times| - 1] && all[|all| - 1] == times[|times| - 1];
      HistorySplits(before, times[..|times| - 1], window, limit, a);
    } else {
      assert before + times == before;
      if before != [] {
        assert before[..|before| - 1] + [] == before[..|before| - 1];
        HistorySplits(before[..|before| - 1], [], window, limit, a);
      }
    }
  }

  /** Per window: whenever no window is running, at most the limit is admitted from then on
      within one window's length, in particular in the window that the next hit starts. */
  lemma WindowBound(before: seq<int>, times: seq<int>, window: nat, limit: nat, a: int)
    requires Ordered(before + times) && 1 <= limit && Count(After(before, window), a) == 0
    requires (forall i :: 0 <= i < |before| ==> before[i] < a) && Inside(times, a, a + window)
    ensures Admitted(before + times, window, limit, a, a + window) <= limit
  {
    HistorySplits(before, times, window, limit, a);
    SpentBound(After(before, window), times, window, limit, a);
  }
}
