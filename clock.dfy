/**
 * The catch-up rule of `run`: on each frame the engine runs every step of
 * `period` milliseconds that has started since the last frame, then draws once.
 */
module Clock {
  import opened Optional

  /** The logical step length, in milliseconds. */
  const Period := 30

  lemma {:induction false} MulMonotone(a: int, b: int, p: int)
    requires a <= b && p > 0
    ensures a * p <= b * p
    decreases b - a
  {
    if a < b {
      MulMonotone(a + 1, b, p);
      assert (a + 1) * p == a * p + p;
    }
  }

  /**
   * The number of passes of `for (i = 0; i < elapsed / period; i++)`: the
   * least k >= 0 with k * period >= elapsed, i.e. the ceiling of
   * elapsed / period, and 0 when no time has passed.
   */
  function CatchUpSteps(elapsed: int, period: int): (k: nat)
    requires period > 0
    ensures k * period >= elapsed
    ensures k == 0 || (k - 1) * period < elapsed
  {
    if elapsed <= 0 then 0
    else
      var k := (elapsed + period - 1) / period;
      assert k * period + (elapsed + period - 1) % period == elapsed + period - 1;
      assert (k - 1) * period == k * period - period;
      k
  }

  /** Pass i of the loop runs exactly when i is below the step count. */
  lemma LoopGuard(elapsed: int, period: int, i: nat)
    requires period > 0
    ensures i * period < elapsed <==> i < CatchUpSteps(elapsed, period)
  {
    var k := CatchUpSteps(elapsed, period);
    if i < k {
      MulMonotone(i, k - 1, period);
    } else {
      MulMonotone(k, i, period);
    }
  }

  /** A loop that stops at the first i with i * period >= elapsed has run CatchUpSteps times. */
  lemma CatchUpUnique(elapsed: int, period: int, i: nat)
    requires period > 0
    requires i * period >= elapsed && (i == 0 || (i - 1) * period < elapsed)
    ensures i == CatchUpSteps(elapsed, period)
  {
    LoopGuard(elapsed, period, i);
    if i > 0 {
      LoopGuard(elapsed, period, i - 1);
    }
  }

  /** The rule rounds up: 3.5 periods give 4 steps, whole periods give exactly that many, none gives 0. */
  lemma CatchUpExamples()
    ensures CatchUpSteps(105, Period) == 4
    ensures CatchUpSteps(90, Period) == 3
    ensures CatchUpSteps(1, Period) == 1
    ensures CatchUpSteps(0, Period) == 0
  {
  }

  /** `lastupdatetimestamp` is a baseline only when truthy: `undefined` and 0 both restart it. */
  predicate HasBaseline(last: Option<int>)
  {
    last.Some? && last.value != 0
  }
}
