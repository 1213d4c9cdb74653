/** The percentage bar on a project card: the share of the target raised so far, rounded
    to a whole percent and capped at 100. */
module ProjectCard {

  /** `Math.round`: the nearest integer, a half rounding towards positive infinity. */
  function Round(x: real): (n: int)
    ensures n as real - 0.5 <= x < n as real + 0.5
  {
    (x + 0.5).Floor
  }

  /** That is the only integer within half a unit in that sense. */
  lemma RoundUnique(x: real, n: int)
    requires n as real - 0.5 <= x < n as real + 0.5
    ensures Round(x) == n
  {
    var m := Round(x);
    assert m as real - n as real < 1.0 && n as real - m as real < 1.0;
  }

  /** `Math.round` does not decrease when its argument grows. */
  lemma RoundMonotone(x: real, y: real)
    requires x <= y
    ensures Round(x) <= Round(y)
  {
  }

  /** `Math.min(100, Math.round((raised / target) * 100))`, for a positive target. */
  function Progress(raised: real, target: real): (percent: int)
    requires target > 0.0
  {
    var rounded := Round(raised / target * 100.0);
    if rounded < 100 then rounded else 100
  }

  /** The bar never passes 100 and is full once the target is met. */
  lemma ProgressCapped(raised: real, target: real)
    requires target > 0.0
    ensures Progress(raised, target) <= 100
    ensures raised >= target ==> Progress(raised, target) == 100
  {
    if raised >= target {
      assert raised / target >= 1.0;
      RoundMonotone(100.0, raised / target * 100.0);
      RoundUnique(100.0, 100);
    }
  }

  /** Nothing raised shows 0, and a non-negative total never shows a negative percent. */
  lemma ProgressFloor(raised: real, target: real)
    requires target > 0.0
    ensures raised == 0.0 ==> Progress(raised, target) == 0
    ensures raised >= 0.0 ==> Progress(raised, target) >= 0
  {
    if raised >= 0.0 {
      assert raised / target >= 0.0;
      RoundMonotone(0.0, raised / target * 100.0);
      RoundUnique(0.0, 0);
    }
    if raised == 0.0 {
      assert raised / target * 100.0 == 0.0;
      RoundUnique(0.0, 0);
    }
  }

  /** The bar is full exactly when the exact share reaches 99.5%; below that it is the nearest
      whole percent, halves rounded up. */
  lemma ProgressRounds(raised: real, target: real)
    requires target > 0.0
    ensures var p := Progress(raised, target); var exact := 100.0 * raised / target;
      && (p == 100 <==> exact >= 99.5)
      && (exact < 99.5 ==> p < 100 && p as real - 0.5 <= exact < p as real + 0.5)
  {
    assert raised / target * 100.0 == 100.0 * raised / target;
  }
}
