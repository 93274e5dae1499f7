/**
 * `compareToOld` (index.js:223-230): the baseline's total energy divided by
 * the new total, rounded to two decimals; null when there is no baseline.
 */
module Comparison {
  import opened Wrappers
  import opened JsNumber
  import opened Aggregation

  /** A whole number of hundredths. */
  predicate IsHundredths(x: real) {
    (x * 100.0).Floor as real == x * 100.0
  }

  /** `Math.round(x * 100) / 100`: `x` to two decimals. */
  function RoundToHundredths(x: real): (r: real)
    ensures IsHundredths(r)
    ensures -0.005 < r - x <= 0.005
  {
    Round(x * 100.0) as real / 100.0
  }

  /** The two properties of RoundToHundredths determine it. */
  lemma RoundToHundredthsUnique(x: real, y: real)
    requires IsHundredths(y) && -0.005 < y - x <= 0.005
    ensures RoundToHundredths(x) == y
  {
    var k := (y * 100.0).Floor;
    assert k as real - 0.5 <= x * 100.0 < k as real + 0.5;
    RoundUnique(x * 100.0, k);
  }

  /** The baseline-to-new ratio; the source divides without a guard, so a
      zero new total is excluded when there is a baseline. */
  function CompareToOld(newData: EnergyReport, oldData: Option<EnergyReport>): (r: Option<real>)
    requires oldData.Some? ==> newData.totalEnergy != 0.0
    ensures r.None? <==> oldData.None?
    ensures r.Some? ==> IsHundredths(r.value)
    ensures r.Some? ==> -0.005 < r.value - oldData.value.totalEnergy / newData.totalEnergy <= 0.005
  {
    match oldData
    case None => None
    case Some(baseline) => Some(RoundToHundredths(baseline.totalEnergy / newData.totalEnergy))
  }

  /** Equal totals give a ratio of exactly 1. */
  lemma EqualTotals(newData: EnergyReport, oldData: EnergyReport)
    requires newData.totalEnergy != 0.0 && oldData.totalEnergy == newData.totalEnergy
    ensures CompareToOld(newData, Some(oldData)) == Some(1.0)
  {
    RoundToHundredthsUnique(oldData.totalEnergy / newData.totalEnergy, 1.0);
  }

  /** A baseline of 105 against a new total of 100 gives 1.05. */
  lemma FivePercentLess(newData: EnergyReport, oldData: EnergyReport)
    requires newData.totalEnergy == 100.0 && oldData.totalEnergy == 105.0
    ensures CompareToOld(newData, Some(oldData)) == Some(1.05)
  {
    RoundToHundredthsUnique(1.05, 1.05);
  }

  /** A baseline of 100.3 against a new total of 100 rounds to 1.0. */
  lemma WithinRounding(newData: EnergyReport, oldData: EnergyReport)
    requires newData.totalEnergy == 100.0 && oldData.totalEnergy == 100.3
    ensures CompareToOld(newData, Some(oldData)) == Some(1.0)
  {
    RoundToHundredthsUnique(1.003, 1.0);
  }

  /** Positive totals give a non-negative ratio. */
  lemma PositiveRatio(newData: EnergyReport, oldData: EnergyReport)
    requires newData.totalEnergy > 0.0 && oldData.totalEnergy > 0.0
    ensures CompareToOld(newData, Some(oldData)).value >= 0.0
  {
    var q := oldData.totalEnergy / newData.totalEnergy;
    assert q > 0.0;
  }
}
