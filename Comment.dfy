/**
 * `createComment` (index.js:199-221): the pull-request comment. Its body
 * starts with the total energy, the average power to two decimals and the
 * duration; when there is a ratio, one verdict line follows, chosen by a band
 * test applied to the ratio itself.
 */
module Comment {
  import opened Wrappers
  import opened JsNumber
  import opened Aggregation
  import opened Comparison

  /** The verdict line's kind and the percentage it shows. */
  datatype Verdict = NoSignificantDifference | Lower(percent: int) | Higher(percent: int)

  /** The lines of the comment body, each as the value it shows. */
  datatype Line =
    | TotalLine(totalEnergy: real)
    | PowerLine(power: real)
    | DurationLine(duration: nat)
    | VerdictLine(verdict: Verdict)

  /** The band test of index.js:203-209. */
  function Classify(difference: real): (v: Verdict)
    ensures v.NoSignificantDifference? <==> -0.5 <= difference <= 0.5
    ensures v.Lower? <==> difference > 0.5
    ensures v.Higher? <==> difference < -0.5
    ensures !v.NoSignificantDifference? ==> v.percent == Round(difference * 100.0)
  {
    if -0.5 <= difference <= 0.5 then NoSignificantDifference
    else if difference > 0.5 then Lower(Round(difference * 100.0))
    else Higher(Round(difference * 100.0))
  }

  /** The three lines every comment starts with. */
  function Header(data: EnergyReport): (lines: seq<Line>)
    ensures |lines| == 3
    ensures lines[0] == TotalLine(data.totalEnergy) && lines[2] == DurationLine(data.duration)
    ensures lines[1].PowerLine? && IsHundredths(lines[1].power)
    ensures lines[1].PowerLine? && -0.005 < lines[1].power - data.powerAvg <= 0.005
  {
    [TotalLine(data.totalEnergy), PowerLine(RoundToHundredths(data.powerAvg)), DurationLine(data.duration)]
  }

  /** The comment body for a report and the ratio from `compareToOld`. */
  function CommentBody(data: EnergyReport, difference: Option<real>): (body: seq<Line>)
    ensures |body| >= 3 && body[..3] == Header(data)
    ensures difference.None? ==> |body| == 3
    ensures difference.Some? ==> |body| == 4 && body[3] == VerdictLine(Classify(difference.value))
  {
    Header(data) + if difference.None? then [] else [VerdictLine(Classify(difference.value))]
  }

  /** The body as index.js:201-210 builds it, one `+=` at a time. */
  method BuildComment(data: EnergyReport, difference: Option<real>) returns (body: seq<Line>)
    ensures body == CommentBody(data, difference)
  {
    body := [TotalLine(data.totalEnergy), PowerLine(RoundToHundredths(data.powerAvg)), DurationLine(data.duration)];
    if difference.Some? {
      var d := difference.value;
      if d >= -0.5 && d <= 0.5 {
        body := body + [VerdictLine(NoSignificantDifference)];
      } else if d > 0.5 {
        body := body + [VerdictLine(Lower(Round(d * 100.0)))];
      } else {
        body := body + [VerdictLine(Higher(Round(d * 100.0)))];
      }
    }
  }

  const Paragraph: string := "\n\n"
  const NoDifference: string := "No significant difference" + " has been found compared to the base branch."
  const NoDifferenceText: string := Paragraph + NoDifference
  const RedPrefix: string := Paragraph + "<code style=\"color : red\">"
  const GreenPrefix: string := Paragraph + "<code style=\"color : green\">"
  const LowerSuffix: string := "%</code> lower than the base branch"
  const HigherSuffix: string := "%</code> higher than the base branch"

  /** The text a verdict appends to the body: a new paragraph and, for the
      coloured lines, red for lower and green for higher, with a number
      between the markup that reads back as the verdict's percentage. */
  function VerdictText(v: Verdict): (t: string)
    ensures |t| > 2 && t[..2] == "\n\n"
    ensures v.Lower? ==> Shows(t, RedPrefix, v.percent, LowerSuffix)
    ensures v.Higher? ==> Shows(t, GreenPrefix, v.percent, HigherSuffix)
  {
    match v
    case NoSignificantDifference => NoDifferenceText
    case Lower(p) => ShownPercent(RedPrefix, p, LowerSuffix); RedPrefix + IntToString(p) + LowerSuffix
    case Higher(p) => ShownPercent(GreenPrefix, p, HigherSuffix); GreenPrefix + IntToString(p) + HigherSuffix
  }

  /** `t` is `prefix`, a number `Number` reads as `p`, then `suffix`. */
  predicate Shows(t: string, prefix: string, p: int, suffix: string) {
    |prefix| + |suffix| <= |t| && t[..|prefix|] == prefix && t[|t| - |suffix|..] == suffix
    && ParseNumber(t[|prefix|..|t| - |suffix|]) == Some(p as real)
  }

  lemma ShownPercent(prefix: string, p: int, suffix: string)
    ensures Shows(prefix + IntToString(p) + suffix, prefix, p, suffix)
  {
    var t := prefix + IntToString(p) + suffix;
    assert t[|prefix|..|t| - |suffix|] == IntToString(p);
    ParseIntToString(p);
  }

  /** The decimal text of an integer determines the integer. */
  lemma IntToStringInjective(a: int, b: int)
    requires IntToString(a) == IntToString(b)
    ensures a == b
  {
    ParseIntToString(a);
    ParseIntToString(b);
  }

  /** Two texts made of one prefix, a middle and one suffix are equal only if
      their middles are. */
  lemma MiddleDetermined(prefix: string, m1: string, m2: string, suffix: string)
    requires prefix + m1 + suffix == prefix + m2 + suffix
    ensures m1 == m2
  {
    var t := prefix + m1 + suffix;
    assert |m1| == |m2|;
    assert m1 == t[|prefix|..|prefix| + |m1|];
    assert m2 == (prefix + m2 + suffix)[|prefix|..|prefix| + |m2|];
  }

  /** A reader of the comment can tell every verdict apart, percentage
      included: different verdicts never render to the same text. */
  lemma VerdictTextInjective(v: Verdict, w: Verdict)
    requires VerdictText(v) == VerdictText(w)
    ensures v == w
  {
    if v.NoSignificantDifference? != w.NoSignificantDifference? {
      KindsDiffer(v, w);
    } else if v.Lower? && w.Lower? {
      MiddleDetermined(RedPrefix, IntToString(v.percent), IntToString(w.percent), LowerSuffix);
      IntToStringInjective(v.percent, w.percent);
    } else if v.Higher? && w.Higher? {
      MiddleDetermined(GreenPrefix, IntToString(v.percent), IntToString(w.percent), HigherSuffix);
      IntToStringInjective(v.percent, w.percent);
    } else if !v.NoSignificantDifference? {
      KindsDiffer(v, w);
    }
  }

  /** Verdicts of different kinds render to texts that differ at a fixed place. */
  lemma KindsDiffer(v: Verdict, w: Verdict)
    requires v.NoSignificantDifference? != w.NoSignificantDifference? || v.Lower? != w.Lower?
    ensures VerdictText(v) != VerdictText(w)
  {
    // "No ..." against "<code ...": they differ right after the paragraph break;
    // "color : red" against "color : green": right after "color : ".
    var colour := |Paragraph + "<code style=\"color : "|;
    assert NoDifference[0] == 'N';
    assert RedPrefix[2] == '<' && RedPrefix[colour] == 'r';
    assert GreenPrefix[2] == '<' && GreenPrefix[colour] == 'g';
    var i := if v.NoSignificantDifference? != w.NoSignificantDifference? then |Paragraph| else colour;
    assert VerdictText(v)[i] != VerdictText(w)[i];
  }

  /**
   * The band test is applied to the ratio itself, not to its distance from 1.
   * With positive totals the ratio is never negative, so the green "higher"
   * line never appears, and "no significant difference" appears only when the
   * ratio is at most 0.5 (the new run used about twice the baseline or more).
   */
  lemma PositiveTotalsVerdict(newData: EnergyReport, oldData: EnergyReport)
    requires newData.totalEnergy > 0.0 && oldData.totalEnergy > 0.0
    ensures var v := Classify(CompareToOld(newData, Some(oldData)).value);
            !v.Higher? && (v.NoSignificantDifference? <==> CompareToOld(newData, Some(oldData)).value <= 0.5)
  {
    PositiveRatio(newData, oldData);
  }

  /** At parity the comment reads "100% lower than the base branch". */
  lemma ParityVerdict(newData: EnergyReport, oldData: EnergyReport)
    requires newData.totalEnergy != 0.0 && oldData.totalEnergy == newData.totalEnergy
    ensures Classify(CompareToOld(newData, Some(oldData)).value) == Lower(100)
  {
    EqualTotals(newData, oldData);
    RoundUnique(100.0, 100);
  }

  /** A baseline of 105 against 100 reads "105% lower than the base branch". */
  lemma FivePercentLessVerdict(newData: EnergyReport, oldData: EnergyReport)
    requires newData.totalEnergy == 100.0 && oldData.totalEnergy == 105.0
    ensures Classify(CompareToOld(newData, Some(oldData)).value) == Lower(105)
  {
    FivePercentLess(newData, oldData);
    RoundUnique(105.0, 105);
  }
}
