/** The judge's final score (scripts/local_runner.py, `end_interaction`):
    80% weight on VMs placed and 20% on VMs placed by their soft rules, each
    relative to a baseline run; no score without a baseline. Exact
    rationals stand in for Python floats. */
module JudgeScore {
  import opened Common

  function Ratio(x: int, base: int): real
  {
    x as real / Max(1, base) as real
  }

  function Score(placed: int, soft: int, baseline: Option<(int, int)>): (r: Option<real>)
    ensures r.Some? <==> baseline.Some?
  {
    match baseline
    case None => None
    case Some((placedBase, softBase)) => Some(0.8 * Ratio(placed, placedBase) + 0.2 * Ratio(soft, softBase))
  }

  lemma RatioOne(x: int)
    requires x >= 1
    ensures Ratio(x, x) == 1.0
  {
    assert Max(1, x) == x;
    var r := x as real;
    assert r / r == 1.0;
  }

  /** Matching a baseline with at least one VM of each kind scores exactly 1. */
  lemma ScoreOfBaseline(placedBase: int, softBase: int)
    requires placedBase >= 1 && softBase >= 1
    ensures Score(placedBase, softBase, Some((placedBase, softBase))) == Some(1.0)
  {
    RatioOne(placedBase);
    RatioOne(softBase);
  }

  lemma RatioMonotone(x: int, y: int, base: int)
    requires x <= y
    ensures Ratio(x, base) <= Ratio(y, base)
  {
    var d := Max(1, base) as real;
    assert Ratio(y, base) - Ratio(x, base) == (y - x) as real / d;
  }

  /** Placing more VMs, or more of them by their soft rules, never lowers the score. */
  lemma ScoreMonotone(placed1: int, soft1: int, placed2: int, soft2: int, baseline: Option<(int, int)>)
    requires placed1 <= placed2 && soft1 <= soft2 && baseline.Some?
    ensures Score(placed1, soft1, baseline).value <= Score(placed2, soft2, baseline).value
  {
    RatioMonotone(placed1, placed2, baseline.value.0);
    RatioMonotone(soft1, soft2, baseline.value.1);
  }

  lemma RatioBounds(x: int, base: int)
    requires 0 <= x <= Max(1, base)
    ensures 0.0 <= Ratio(x, base) <= 1.0
  {
    RatioMonotone(x, Max(1, base), base);
    RatioOne(Max(1, base));
  }

  /** A run that does no better than a non-empty baseline scores between 0 and 1. */
  lemma ScoreBounds(placed: int, soft: int, placedBase: int, softBase: int)
    requires 0 <= placed <= Max(1, placedBase) && 0 <= soft <= Max(1, softBase)
    ensures 0.0 <= Score(placed, soft, Some((placedBase, softBase))).value <= 1.0
  {
    RatioBounds(placed, placedBase);
    RatioBounds(soft, softBase);
  }
}
