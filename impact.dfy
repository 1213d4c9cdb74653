/** The counting-up animation of an impact figure: every 20 ms the shown number grows by a
    fixed step until it would pass the target, which is then shown and the timer stopped. */
module Impact {

  /** 2000 ms of animation at one tick per 20 ms. */
  const Duration: int := 2000
  const Interval: int := 20

  /** `Math.max(1, Math.floor(count / (duration / interval)))`. For a positive divisor Dafny's
      integer division is the floor, as `Math.floor` is. */
  function Step(count: int): (step: int)
    ensures step >= 1
    ensures count >= 200 ==> step * 100 <= count < (step + 1) * 100
  {
    var q := count / (Duration / Interval);
    if q > 1 then q else 1
  }

  /** What the k-th tick (from 0) shows: the next multiple of the step, or the target once that
      would pass it. */
  function Shown(count: int, k: nat): int {
    var next := (k + 1) * Step(count);
    if next > count then count else next
  }

  /** How many ticks run before the timer is cleared. */
  function Ticks(count: int): (n: nat)
    ensures n >= 1
  {
    if count < 0 then 1 else count / Step(count) + 1
  }

  /** More steps of a non-negative size go at least as far. */
  lemma {:induction false} MulMonotone(a: nat, b: nat, step: int)
    requires a <= b && step >= 0
    ensures a * step <= b * step
    decreases b - a
  {
    if a < b {
      MulMonotone(a, b - 1, step);
      assert b * step == (b - 1) * step + step;
    }
  }

  /** `k` steps stay within a non-negative target exactly while `k` is at most `count / step`. */
  lemma StepsWithin(count: int, step: int, k: nat)
    requires count >= 0 && step >= 1
    ensures k * step <= count <==> k <= count / step
  {
    var q, r := count / step, count % step;
    assert count == q * step + r && 0 <= r < step;
    if k <= q {
      MulMonotone(k, q, step);
    } else {
      MulMonotone(q + 1, k, step);
      assert (q + 1) * step == q * step + step;
    }
  }

  /** One tick from `k` whole steps within the target: the next value is one step further,
      and either it passes the target, which ends the ticks, or it stays within it. */
  lemma NextTick(count: int, k: nat)
    requires count >= 0 && k * Step(count) <= count
    ensures (k + 1) * Step(count) == k * Step(count) + Step(count)
    ensures (k + 1) * Step(count) > count ==> k + 1 == Ticks(count)
    ensures (k + 1) * Step(count) <= count ==> k + 1 <= count / Step(count)
  {
    var step := Step(count);
    StepsWithin(count, step, k + 1);
    StepsWithin(count, step, k);
  }

  /** `ImpactStat`'s effect: the values passed to `setDisplayCount`, tick by tick. */
  method Animate(count: int) returns (shown: seq<int>)
    ensures |shown| == Ticks(count)
    ensures forall k :: 0 <= k < |shown| ==> shown[k] == Shown(count, k)
  {
    var step := Step(count);
    var current := 0;
    var running := true;
    shown := [];
    while running
      invariant running ==> current == |shown| * step
      invariant running && count >= 0 ==> current <= count
      invariant running && count < 0 ==> shown == []
      invariant !running ==> |shown| == Ticks(count)
      invariant forall k :: 0 <= k < |shown| ==> shown[k] == Shown(count, k)
      decreases running, if count >= 0 then count - current else 0
    {
      if count >= 0 {
        NextTick(count, |shown|);
      }
      current := current + step;
      if current > count {
        current := count;
        running := false;
      }
      shown := shown + [current];
    }
  }

  /** For a non-negative target nothing shown passes it. */
  lemma ShownAtMost(count: int, k: nat)
    requires count >= 0
    ensures Shown(count, k) <= count
  {
  }

  /** Each tick shows at least what the one before it showed. */
  lemma ShownNondecreasing(count: int, i: nat, j: nat)
    requires i <= j
    ensures Shown(count, i) <= Shown(count, j)
  {
    var step := Step(count);
    assert (j + 1) * step == (i + 1) * step + (j - i) * step;
  }

  /** The last tick shows the target itself, and no tick before it does so by clamping. */
  lemma LastShownIsCount(count: int)
    ensures Shown(count, Ticks(count) - 1) == count
    ensures count >= 0 ==> forall k :: 0 <= k < Ticks(count) - 1 ==> Shown(count, k) == (k + 1) * Step(count)
  {
    var step := Step(count);
    if count >= 0 {
      StepsWithin(count, step, Ticks(count));
      forall k | 0 <= k < Ticks(count) - 1
        ensures Shown(count, k) == (k + 1) * step
      {
        StepsWithin(count, step, k + 1);
      }
    }
  }

  /** A target of 0 is shown once and the timer stops at once. */
  lemma ZeroShownOnce()
    ensures Ticks(0) == 1 && Shown(0, 0) == 0
  {
  }
}
