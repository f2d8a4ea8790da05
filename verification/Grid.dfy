/** The arithmetic of the message clock: due times lie on a grid of period-spaced points, and the streams of
    a fleet are staggered over one period by an integer division. */
module Grid {
  import opened Words

  // ----- One stream

  /** Point `j` of the grid that starts at `offset`. */
  function Point(offset: nat, period: nat, j: nat): nat {
    offset + j * period
  }

  /** The catch-up loop, as a function: step past `now` in whole periods, at least once. */
  function Advance(due: nat, period: nat, now: nat): (next: nat)
    requires period > 0 && due <= now
    ensures now < next <= now + period
  {
    StepPast(now - due, period);
    due + ((now - due) / period + 1) * period
  }

  lemma StepPast(elapsed: nat, period: nat)
    requires period > 0
    ensures elapsed < (elapsed / period + 1) * period <= elapsed + period
  {
    var q, r := elapsed / period, elapsed % period;
    assert elapsed == q * period + r;
    assert (q + 1) * period == q * period + period;
  }

  /** What a tick does to the due time of one stream. */
  function AfterTick(due: nat, period: nat, now: nat): nat
    requires period > 0
  {
    if now < due then due else Advance(due, period, now)
  }

  /** The least grid point beyond `last`. */
  function NextDue(offset: nat, period: nat, last: nat): nat
    requires period > 0
  {
    if last < offset then offset else Advance(offset, period, last)
  }

  lemma DivMod(x: nat, d: nat)
    requires d > 0
    ensures x == (x / d) * d + x % d && (x / d) * d <= x < (x / d) * d + d
    ensures (x / d + 1) * d == (x / d) * d + d
  {
  }

  lemma QuotientBetween(x: nat, d: nat, q: nat)
    requires d > 0 && q * d <= x < (q + 1) * d
    ensures x / d == q
  {
    assert (q + 1) * d == q * d + d;
    UniqueQuotient(x, d, q, x - q * d);
  }

  /** NextDue is on the grid, beyond `last`, and no other grid point lies in between. */
  lemma NextDueIsLeast(offset: nat, period: nat, last: nat, j: nat)
    requires period > 0
    ensures last < NextDue(offset, period, last)
    ensures exists i: nat :: NextDue(offset, period, last) == Point(offset, period, i)
    ensures Point(offset, period, j) > last ==> Point(offset, period, j) >= NextDue(offset, period, last)
  {
    if last < offset {
      assert NextDue(offset, period, last) == Point(offset, period, 0);
      MulMonotone(0, j, period);
    } else {
      var q := (last - offset) / period;
      StepPast(last - offset, period);
      assert NextDue(offset, period, last) == Point(offset, period, q + 1);
      if j <= q {
        MulMonotone(j, q, period);
      } else {
        MulMonotone(q + 1, j, period);
      }
    }
  }

  lemma StillAhead(offset: nat, period: nat, last: nat, now: nat)
    requires period > 0 && offset <= last <= now < NextDue(offset, period, last)
    ensures NextDue(offset, period, now) == NextDue(offset, period, last)
  {
    var q := (last - offset) / period;
    DivMod(last - offset, period);
    assert NextDue(offset, period, last) == offset + (q + 1) * period;
    QuotientBetween(now - offset, period, q);
  }

  lemma CaughtUp(offset: nat, period: nat, q: nat, now: nat)
    requires period > 0 && offset + q * period <= now
    ensures Advance(offset + q * period, period, now) == Advance(offset, period, now)
  {
    var x := now - (offset + q * period);
    var r := x / period;
    assert x == r * period + x % period;
    assert now - offset == (q + r) * period + x % period by { assert (q + r) * period == q * period + r * period; }
    UniqueQuotient(now - offset, period, q + r, x % period);
    assert (q + r + 1) * period == q * period + (r + 1) * period;
  }

  /** Catching up from the point that was next keeps the due time on the same grid: no drift. */
  lemma CatchUpKeepsGrid(offset: nat, period: nat, last: nat, now: nat)
    requires period > 0 && last <= now
    ensures AfterTick(NextDue(offset, period, last), period, now) == NextDue(offset, period, now)
  {
    if offset <= last {
      if now < NextDue(offset, period, last) {
        StillAhead(offset, period, last, now);
      } else {
        CaughtUp(offset, period, (last - offset) / period + 1, now);
      }
    }
  }

  /** How many grid points have been reached at `now`. */
  function Reached(offset: nat, period: nat, now: nat): nat
    requires period > 0
  {
    if now < offset then 0 else (now - offset) / period + 1
  }

  /** Point `j` has been reached exactly if fewer than `j + 1` points are too few. */
  lemma ReachedCounts(offset: nat, period: nat, now: nat, j: nat)
    requires period > 0
    ensures j < Reached(offset, period, now) <==> Point(offset, period, j) <= now
  {
    MulMonotone(0, j, period);
    if offset <= now {
      var q := (now - offset) / period;
      StepPast(now - offset, period);
      assert now - offset == q * period + (now - offset) % period;
      if j <= q {
        MulMonotone(j, q, period);
      } else {
        MulMonotone(q + 1, j, period);
      }
    }
  }

  /** A stream is due at `now` exactly if a grid point was reached since `last`, and at most one was if no
      more than a period has passed. */
  lemma DueWhenReached(offset: nat, period: nat, last: nat, now: nat)
    requires period > 0 && last <= now
    ensures now >= NextDue(offset, period, last) <==> Reached(offset, period, now) > Reached(offset, period, last)
    ensures Reached(offset, period, last) <= Reached(offset, period, now)
    ensures now - last <= period ==> Reached(offset, period, now) <= Reached(offset, period, last) + 1
  {
    var a := Reached(offset, period, last);
    ReachedCounts(offset, period, now, a);
    if a > 0 { ReachedCounts(offset, period, now, a - 1); ReachedCounts(offset, period, last, a - 1); }
    ReachedCounts(offset, period, last, a);
    assert NextDue(offset, period, last) == Point(offset, period, a);
    ReachedCounts(offset, period, now, a + 1);
    assert Point(offset, period, a + 1) == Point(offset, period, a) + period;
  }

  // ----- A staggered fleet

  /** The m-th due time of a fleet of `slots` streams that share `period`. */
  function Staggered(start: nat, period: nat, slots: nat, m: nat): nat
    requires slots > 0
  {
    start + period * m / slots
  }

  /** The grids of all slots together are exactly these due times: point `j` of slot `slot` is number j * slots + slot. */
  lemma SlotsInterleave(start: nat, period: nat, slots: nat, slot: nat, j: nat)
    requires slot < slots
    ensures Point(Staggered(start, period, slots, slot), period, j) == Staggered(start, period, slots, j * slots + slot)
  {
    var q, r := period * slot / slots, period * slot % slots;
    assert period * slot == q * slots + r;
    assert period * (j * slots + slot) == (j * period + q) * slots + r by {
      assert period * (j * slots + slot) == period * (j * slots) + period * slot;
      assert period * (j * slots) == (j * period) * slots;
      assert (j * period + q) * slots == (j * period) * slots + q * slots;
    }
    UniqueQuotient(period * (j * slots + slot), slots, j * period + q, r);
  }

  /** The number of point `j` of a slot among the points of all slots. */
  function Number(j: nat, slots: nat, slot: nat): nat {
    j * slots + slot
  }

  lemma SplitNumber(m: nat, slots: nat)
    requires slots > 0
    ensures m % slots < slots && m == Number(m / slots, slots, m % slots)
  {
    DivMod(m, slots);
  }

  lemma UniqueNumber(j: nat, slots: nat, slot: nat)
    requires slot < slots
    ensures Number(j, slots, slot) / slots == j && Number(j, slots, slot) % slots == slot
  {
    UniqueQuotient(j * slots + slot, slots, j, slot);
  }

  /** Every number belongs to exactly one point of exactly one slot. */
  lemma NumbersAreSlots(start: nat, period: nat, slots: nat, m: nat)
    requires slots > 0
    ensures Staggered(start, period, slots, m) == Point(Staggered(start, period, slots, m % slots), period, m / slots)
    ensures forall j: nat, slot: nat :: slot < slots && Number(j, slots, slot) == m <==> j == m / slots && slot == m % slots
  {
    hide Staggered, Point;
    SplitNumber(m, slots);
    SlotsInterleave(start, period, slots, m % slots, m / slots);
    forall j: nat, slot: nat | slot < slots && Number(j, slots, slot) == m
      ensures j == m / slots && slot == m % slots
    {
      UniqueNumber(j, slots, slot);
    }
  }

  /** The first due time of a slot lies within one period of the start. */
  lemma FirstWithinPeriod(start: nat, period: nat, slots: nat, slot: nat)
    requires slot < slots && period > 0
    ensures start <= Staggered(start, period, slots, slot) < start + period
  {
    var q := period * slot / slots;
    DivMod(period * slot, slots);
    MulMonotone(slot + 1, slots, period);
    assert period * slots == slots * period && period * slot == slot * period;
    assert (slot + 1) * period == slot * period + period;
    if period <= q {
      MulMonotone(period, q, slots);
    }
  }

  function Ceiling(a: nat, b: nat): nat
    requires b > 0
  {
    (a + b - 1) / b
  }

  /** Two due times less than `window` apart have numbers less than Ceiling(window * slots, period) apart. */
  lemma CloseNumbers(start: nat, period: nat, slots: nat, window: nat, m: nat, k: nat)
    requires slots > 0 && period > 0
    requires Staggered(start, period, slots, m + k) < Staggered(start, period, slots, m) + window
    ensures k < Ceiling(window * slots, period)
  {
    var a, b := period * m / slots, period * (m + k) / slots;
    DivMod(period * m, slots);
    DivMod(period * (m + k), slots);
    assert period * (m + k) == period * m + period * k;
    assert b + 1 <= a + window;
    MulMonotone(b + 1, a + window, slots);
    assert (b + 1) * slots == b * slots + slots && (a + window) * slots == a * slots + window * slots;
    assert period * k < window * slots;
    var c := Ceiling(window * slots, period);
    DivMod(window * slots + period - 1, period);
    assert k * period == period * k;
    if c <= k {
      MulMonotone(c, k, period);
    }
  }

  /** Any window of the whole run holds at most Ceiling(window * slots / period) due times of the fleet. */
  lemma WindowBound(start: nat, period: nat, slots: nat, from: nat, window: nat, limit: nat)
    requires slots > 0 && period > 0
    ensures |set m | 0 <= m < limit && from <= Staggered(start, period, slots, m) < from + window|
         <= Ceiling(window * slots, period)
  {
    var inside := set m | 0 <= m < limit && from <= Staggered(start, period, slots, m) < from + window;
    if inside != {} {
      var least := LeastOf(inside);
      var n := Ceiling(window * slots, period);
      forall m | m in inside ensures least <= m < least + n {
        CloseNumbers(start, period, slots, window, least, m - least);
      }
      CountInterval(inside, least, n);
    }
  }

  lemma LeastOf(s: set<nat>) returns (least: nat)
    requires s != {}
    ensures least in s && forall m :: m in s ==> least <= m
  {
    least :| least in s;
    while exists m :: m in s && m < least
      invariant least in s
      decreases least
    {
      var smaller :| smaller in s && smaller < least;
      least := smaller;
    }
  }

  lemma {:induction false} CountInterval(s: set<nat>, low: nat, n: nat)
    requires forall m :: m in s ==> low <= m < low + n
    ensures |s| <= n
    decreases n
  {
    if n == 0 {
      assert s == {};
    } else {
      var rest := s - {low + n - 1};
      CountInterval(rest, low, n - 1);
      assert s <= rest + {low + n - 1};
    }
  }

  /** With no more slots than milliseconds in a period, all due times are distinct and in order. */
  lemma DistinctDueTimes(start: nat, period: nat, slots: nat, m: nat, n: nat)
    requires 0 < slots <= period && m < n
    ensures Staggered(start, period, slots, m) < Staggered(start, period, slots, n)
  {
    var a := period * m / slots;
    assert period * m == a * slots + period * m % slots;
    MulMonotone(m + 1, n, period);
    assert n * period == period * n && (m + 1) * period == period * m + period;
    var b := period * n / slots;
    assert period * n == b * slots + period * n % slots;
    if b <= a {
      MulMonotone(b, a, slots);
    }
  }
}
