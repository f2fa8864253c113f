/**
 * The cases of src/index.spec.ts, stated as lemmas about the normalizers and
 * derived from their general properties. Each input is a parameter fixed by
 * the precondition, so that the verifier reasons from the lemmas instead of
 * evaluating the recursive definitions on a literal; where a case needs both
 * where the match lies and what `parseInt` makes of it, the two are proved by
 * separate lemmas.
 */
module NormalizerExamples {
  import opened JsRuntime
  import opened TextNormalizers

  /** In "第２節第１日" the match captures the normalised "２" and nothing else. */
  lemma FindSeriesCapture(text: string)
    requires text == "第２節第１日"
    ensures ToHalfWidth(text)[1..2] == "2"
    ensures FindSeries(text) == Some(ParseInt(ToHalfWidth(text)[1..2]))
  {
    assert ToHalfWidth(text) == "第2節第1日";
    FindSeriesOnOneLine(text, 0, 2);
  }

  /** "第２節第１日" (round 2, day 1) is round 2. */
  lemma FindSeriesFound(text: string)
    requires text == "第２節第１日"
    ensures FindSeries(text) == Some(Int(2))
  {
    FindSeriesCapture(text);
    assert ToHalfWidth(text)[1..2] == NumberToString(2);
    ParseIntOfNumberToString(2);
  }

  /** "第第１日" has no closing `節`, so there is no round. */
  lemma FindSeriesNotFound(text: string)
    requires text == "第第１日"
    ensures FindSeries(text) == None
  {
    var half := ToHalfWidth(text);
    assert half[0] == half[1] == RoundOpen && half[3] == '日';
    assert forall i: nat, j: nat :: !SeriesMatch(half, i, j);
    FindSeriesNull(text);
  }

  /** "13-1" splits into "13" and "1". */
  lemma SeparateScoreCapture(text: string)
    requires text == "13-1"
    ensures text[..2] == "13" && text[3..] == "1"
    ensures SeparateScore(text) == Some((ParseInt(text[..2]), ParseInt(text[3..])))
  {
    SeparateScoreOnOneLine(text, 2);
  }

  /** "13-1" is 13 goals to 1. */
  lemma SeparateScoreFound(text: string)
    requires text == "13-1"
    ensures SeparateScore(text) == Some((Int(13), Int(1)))
  {
    SeparateScoreCapture(text);
    assert text[..2] == NumberToString(13) && text[3..] == NumberToString(1);
    ParseIntOfNumberToString(13);
    ParseIntOfNumberToString(1);
  }

  /** "未定" (not yet decided) has no score. */
  lemma SeparateScoreNotFound(text: string)
    requires text == "未定"
    ensures SeparateScore(text) == None
  {
    SeparateScoreNull(text);
  }

  /** Month and day are kept as written, leading zeros included. */
  lemma ParseDateFound(text: string, expected: string)
    requires || (text == "02/27(土)" && expected == "02-27")
             || (text == "05/04(火・祝)" && expected == "05-04")
    ensures ParseDate(text) == expected
  {
    assert DatePattern(text, 0, 2, 5);
    ParseDateLeftmost(text, 0, 2, 5);
    assert text[0..2] + "-" + text[3..5] == expected;
  }

  /** The empty cell gives the empty string. */
  lemma ParseDateEmpty(text: string)
    requires text == ""
    ensures ParseDate(text) == ""
  {
  }
}
