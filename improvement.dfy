/** `calculateImprovement` and the null gating around it in the improvement
    route. Accuracies are exact rationals here, not IEEE doubles. */
module Improvement {
  import opened Wrappers
  import opened Aggregate

  /** Percentage change from `previous` to `current`, defined as 0 when
      `previous` is 0 instead of dividing by zero. */
  function CalculateImprovement(current: real, previous: real): (r: real)
    ensures previous == 0.0 ==> r == 0.0
    ensures previous != 0.0 ==> r * previous == (current - previous) * 100.0
  {
    if previous == 0.0 then 0.0 else (current - previous) / previous * 100.0
  }

  /** The improvement can be undone: the current accuracy is the previous
      one grown by that many percent. */
  lemma ImprovementInverse(current: real, previous: real)
    requires previous != 0.0
    ensures current == previous * (1.0 + CalculateImprovement(current, previous) / 100.0)
  {
    var r := CalculateImprovement(current, previous);
    assert r * previous == (current - previous) * 100.0;
    calc {
      previous * (1.0 + r / 100.0);
      previous + r * previous / 100.0;
      previous + (current - previous);
    }
  }

  /** Unchanged accuracy is no improvement. */
  lemma EqualAccuracyNoImprovement(accuracy: real)
    ensures CalculateImprovement(accuracy, accuracy) == 0.0
  {
  }

  /** With a positive previous accuracy the sign of the result is the
      direction of the change. */
  lemma ImprovementSign(current: real, previous: real)
    requires previous > 0.0
    ensures CalculateImprovement(current, previous) > 0.0 <==> current > previous
    ensures CalculateImprovement(current, previous) < 0.0 <==> current < previous
  {
    var r := CalculateImprovement(current, previous);
    assert r * previous == (current - previous) * 100.0;
    if r > 0.0 { assert r * previous > 0.0; }
    if r < 0.0 { assert r * previous < 0.0; }
    if r == 0.0 { assert r * previous == 0.0; }
  }

  /** `made / attempted` of a period with attempts: the share of attempts
      made, between 0 and 1 when the counts are sensible. */
  function Accuracy(t: Totals): (r: real)
    requires t.attempted > 0
    ensures r * t.attempted as real == t.made as real
    ensures 0 <= t.made <= t.attempted ==> 0.0 <= r <= 1.0
  {
    t.made as real / t.attempted as real
  }

  /** One of `improvementDaily`, `improvementWeekly`, `improvementMonthly`:
      null unless both periods have attempts. */
  function PeriodImprovement(current: Totals, previous: Totals): (r: Option<real>)
    ensures r.None? <==> current.attempted <= 0 || previous.attempted <= 0
  {
    if current.attempted > 0 && previous.attempted > 0 then
      Some(CalculateImprovement(Accuracy(current), Accuracy(previous)))
    else
      None
  }

  /** A previous period with attempts but no makes gives 0, not an infinite
      improvement. */
  lemma NoPreviousMakesGivesZero(current: Totals, previous: Totals)
    requires current.attempted > 0 && previous.attempted > 0 && previous.made == 0
    ensures PeriodImprovement(current, previous) == Some(0.0)
  {
  }

  /** When both periods have attempts the figure is the relative change of
      accuracy, in percent. */
  lemma PeriodImprovementValue(current: Totals, previous: Totals)
    requires current.attempted > 0 && previous.attempted > 0 && previous.made != 0
    ensures var r := PeriodImprovement(current, previous);
            r.Some? && r.value * Accuracy(previous) == (Accuracy(current) - Accuracy(previous)) * 100.0
  {
    assert Accuracy(previous) != 0.0;
  }

  /** Equal accuracy, 50% to 100%, and 50% to 10%. */
  lemma Examples()
    ensures PeriodImprovement(Totals(5, 10), Totals(5, 10)) == Some(0.0)
    ensures PeriodImprovement(Totals(10, 10), Totals(5, 10)) == Some(100.0)
    ensures PeriodImprovement(Totals(1, 10), Totals(5, 10)) == Some(-80.0)
  {
    assert Accuracy(Totals(5, 10)) == 0.5;
    assert Accuracy(Totals(10, 10)) == 1.0;
    assert Accuracy(Totals(1, 10)) == 0.1;
  }
}
