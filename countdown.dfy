/** The countdown shown next to each code: seconds left in the current window. */
module Countdown {

  /** The interval `getTimeout` and the refresh jobs fall back to. */
  const DefaultInterval: int := 30

  /** A seconds-of-minute reading, the range the clock's `getSeconds` gives. */
  type Second = s: int | 0 <= s < 60

  /** `t` is a window boundary: a multiple of the interval. */
  predicate IsBoundary(t: int, interval: int)
    requires interval > 0
  {
    t % interval == 0
  }

  /**
   * Seconds left before the next boundary. A reading that sits exactly on a
   * boundary starts a full fresh window, so the result is never 0.
   * (Both operands are non-negative, so JavaScript's `%` and Dafny's agree.)
   */
  function GetTimeout(interval: int, seconds: Second): (r: int)
    requires interval > 0
    ensures 1 <= r <= interval
    ensures r == interval <==> IsBoundary(seconds, interval)
  {
    interval - seconds % interval
  }

  /** A positive multiple of `n` is at least `n`. */
  lemma {:induction false} MultipleAtLeast(k: int, n: int)
    requires k >= 1 && n > 0
    ensures k * n >= n
  {
    if k > 1 {
      MultipleAtLeast(k - 1, n);
      assert k * n == (k - 1) * n + n;
    }
  }

  /** `q * n + d` leaves remainder `d` when `d` is below `n`. */
  lemma ModOfDecomposition(q: int, n: int, d: int)
    requires n > 0 && 0 <= d < n
    ensures (q * n + d) % n == d
  {
    var t := q * n + d;
    var q', d' := t / n, t % n;
    assert t == q' * n + d';
    if q' < q {
      assert (q - q') * n == d' - d;
      MultipleAtLeast(q - q', n);
    } else if q' > q {
      assert (q' - q) * n == d - d';
      MultipleAtLeast(q' - q, n);
    }
  }

  /**
   * `seconds + GetTimeout(interval, seconds)` is the least boundary strictly
   * after `seconds`.
   */
  lemma NextBoundary(interval: int, seconds: Second)
    requires interval > 0
    ensures seconds < seconds + GetTimeout(interval, seconds)
    ensures IsBoundary(seconds + GetTimeout(interval, seconds), interval)
    ensures forall t :: seconds < t < seconds + GetTimeout(interval, seconds) ==> !IsBoundary(t, interval)
  {
    var q, m := seconds / interval, seconds % interval;
    var r := GetTimeout(interval, seconds);
    assert seconds + r == (q + 1) * interval + 0;
    ModOfDecomposition(q + 1, interval, 0);
    forall t | seconds < t < seconds + r
      ensures !IsBoundary(t, interval)
    {
      assert t == q * interval + (t - q * interval);
      ModOfDecomposition(q, interval, t - q * interval);
    }
  }

  /** With the default interval, 0 and 30 seconds show a full window of 30. */
  lemma DefaultWindow(seconds: Second)
    ensures 1 <= GetTimeout(DefaultInterval, seconds) <= 30
    ensures seconds == 0 || seconds == 30 <==> GetTimeout(DefaultInterval, seconds) == 30
  {
  }
}
