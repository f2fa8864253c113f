/**
 * The field normalizers of src/index.ts: `toHalfWidth`, and the three
 * regular-expression micro-parsers `findSeries` (round number), `separateScore`
 * (score pair) and `parseDate` (month and day). None of them throws: a text
 * the pattern does not match gives `null` (here `None`) or the empty string.
 *
 * Each pattern is described twice: declaratively, by a predicate saying which
 * start positions and capture boundaries form a match (`SeriesMatch`,
 * `ScoreMatch`, `DatePattern`), and operationally, by the left-to-right search
 * that `RegExp.prototype.exec` performs (`ExecSeries`, `ExecScore`,
 * `ExecDate`), whose contracts say that it finds the leftmost match and, for
 * that start, the greedy capture.
 */
module TextNormalizers {
  import opened JsRuntime
  import opened JsRegex

  /** The class `[！-～]`: the full-width forms U+FF01 to U+FF5E of `!` to `~`. */
  const FullWidthFirst: char := '\U{FF01}'
  const FullWidthLast: char := '\U{FF5E}'

  /** What `charCodeAt(0) - 0xfee0` subtracts to reach the ASCII counterpart. */
  const FullWidthOffset: int := 0xFEE0

  /** The characters around a round number, as in "第２節" (round 2). */
  const RoundOpen: char := '第'
  const RoundClose: char := '節'

  predicate IsFullWidthForm(c: char) {
    FullWidthFirst <= c <= FullWidthLast
  }

  /**
   * `toHalfWidth`: every full-width form is shifted down to its printable ASCII
   * counterpart; every other character, the ideographic space U+3000 among
   * them, is kept. The length never changes and no full-width form is left.
   */
  function ToHalfWidth(s: string): (h: string)
    ensures |h| == |s|
    ensures forall i :: 0 <= i < |s| && IsFullWidthForm(s[i]) ==>
      h[i] as int == s[i] as int - FullWidthOffset && '!' <= h[i] <= '~'
    ensures forall i :: 0 <= i < |s| && !IsFullWidthForm(s[i]) ==> h[i] == s[i]
    ensures forall i :: 0 <= i < |h| ==> !IsFullWidthForm(h[i])
  {
    seq(|s|, i requires 0 <= i < |s| =>
      if IsFullWidthForm(s[i]) then (s[i] as int - FullWidthOffset) as char else s[i])
  }

  /** Normalising twice is normalising once. */
  lemma ToHalfWidthIdempotent(s: string)
    ensures ToHalfWidth(ToHalfWidth(s)) == ToHalfWidth(s)
  {
  }

  // ---------------------------------------------------------------------------
  // findSeries: /第(.*)節/ on the half-width text, then parseInt of group 1
  // ---------------------------------------------------------------------------

  /** `第(.*)節` matches with `第` at i and `節` at j. */
  predicate SeriesMatch(s: string, i: nat, j: nat) {
    i < |s| && s[i] == RoundOpen && DotStarThen(s, i + 1, j, RoundClose)
  }

  /** `exec` of `/第(.*)節/` from position `from` on: the start and the closing index. */
  function ExecSeries(s: string, from: nat): (r: Option<(nat, nat)>)
    requires from <= |s|
    ensures r.None? ==> forall i: nat, j: nat :: from <= i ==> !SeriesMatch(s, i, j)
    ensures r.Some? ==> from <= r.value.0 && SeriesMatch(s, r.value.0, r.value.1)
    ensures r.Some? ==> forall i: nat, j: nat :: from <= i < r.value.0 ==> !SeriesMatch(s, i, j)
    ensures r.Some? ==> forall j: nat :: r.value.1 < j ==> !SeriesMatch(s, r.value.0, j)
    decreases |s| - from
  {
    if from == |s| then None
    else
      var close := GreedyDotStarThen(s, from + 1, RoundClose);
      if s[from] == RoundOpen && close.Some? then Some((from, close.value))
      else ExecSeries(s, from + 1)
  }

  /** `findSeries`: `parseInt` of what the first match captured, `null` without a match. */
  function FindSeries(text: string): Option<JsInt>
  {
    var half := ToHalfWidth(text);
    match ExecSeries(half, 0)
    case None => None
    case Some((i, j)) => Some(ParseInt(half[i + 1..j]))
  }

  /** The round is `null` exactly when the half-width text holds no `第…節` within one line. */
  lemma FindSeriesNull(text: string)
    ensures FindSeries(text).None? <==> forall i: nat, j: nat :: !SeriesMatch(ToHalfWidth(text), i, j)
  {
    var m := ExecSeries(ToHalfWidth(text), 0);
  }

  /**
   * On a text without line breaks the capture runs from the first `第` to the
   * last `節`, whatever lies between them (another `第` or `節` included).
   */
  lemma FindSeriesOnOneLine(text: string, i: nat, j: nat)
    requires NoLineTerminatorIn(ToHalfWidth(text), 0, |text|)
    requires i < j < |text|
    requires ToHalfWidth(text)[i] == RoundOpen && ToHalfWidth(text)[j] == RoundClose
    requires forall k :: 0 <= k < i ==> ToHalfWidth(text)[k] != RoundOpen
    requires forall k :: j < k < |text| ==> ToHalfWidth(text)[k] != RoundClose
    ensures FindSeries(text) == Some(ParseInt(ToHalfWidth(text)[i + 1..j]))
  {
    var half := ToHalfWidth(text);
    assert SeriesMatch(half, i, j);
    var m := ExecSeries(half, 0);
    assert m.value.0 == i;
    assert m.value.1 == j by {
      assert SeriesMatch(half, i, m.value.1);
    }
  }

  // ---------------------------------------------------------------------------
  // separateScore: /(.*)-(.*)/, then parseInt of both groups
  // ---------------------------------------------------------------------------

  /** `(.*)-(.*)` matches from p with its `-` at k (the second group always matches). */
  predicate ScoreMatch(s: string, p: nat, k: nat) {
    DotStarThen(s, p, k, '-')
  }

  /** `exec` of `/(.*)-(.*)/` from position `from` on: the start and the index of `-`. */
  function ExecScore(s: string, from: nat): (r: Option<(nat, nat)>)
    requires from <= |s|
    ensures r.None? ==> forall p: nat, k: nat :: from <= p ==> !ScoreMatch(s, p, k)
    ensures r.Some? ==> from <= r.value.0 && ScoreMatch(s, r.value.0, r.value.1)
    ensures r.Some? ==> forall p: nat, k: nat :: from <= p < r.value.0 ==> !ScoreMatch(s, p, k)
    ensures r.Some? ==> forall k: nat :: r.value.1 < k ==> !ScoreMatch(s, r.value.0, k)
    decreases |s| - from
  {
    if from == |s| then None
    else
      var dash := GreedyDotStarThen(s, from, '-');
      if dash.Some? then Some((from, dash.value)) else ExecScore(s, from + 1)
  }

  /**
   * `separateScore`: `parseInt` of the two groups of the first match, the
   * second running to the end of the line; `null` without a match.
   */
  function SeparateScore(text: string): Option<(JsInt, JsInt)>
  {
    match ExecScore(text, 0)
    case None => None
    case Some((p, k)) => Some((ParseInt(text[p..k]), ParseInt(text[k + 1..LineEnd(text, k + 1)])))
  }

  /** The score is `null` exactly when the text holds no `-` at all. */
  lemma SeparateScoreNull(text: string)
    ensures SeparateScore(text).None? <==> forall k :: 0 <= k < |text| ==> text[k] != '-'
  {
    assert forall k: nat :: k < |text| ==> (ScoreMatch(text, k, k) <==> text[k] == '-');
    var m := ExecScore(text, 0);
  }

  /** On a text without line breaks the score splits at the last `-`. */
  lemma SeparateScoreOnOneLine(text: string, k: nat)
    requires NoLineTerminatorIn(text, 0, |text|)
    requires k < |text| && text[k] == '-'
    requires forall k' :: k < k' < |text| ==> text[k'] != '-'
    ensures SeparateScore(text) == Some((ParseInt(text[..k]), ParseInt(text[k + 1..])))
  {
    assert ScoreMatch(text, 0, k);
    var m := ExecScore(text, 0);
    assert m.value.0 == 0;
    assert m.value.1 == k by {
      assert ScoreMatch(text, 0, m.value.1);
    }
    var e := LineEnd(text, k + 1);
    assert e == |text|;
    assert text[0..k] == text[..k] && text[k + 1..e] == text[k + 1..];
    assert SeparateScore(text) == Some((ParseInt(text[0..k]), ParseInt(text[k + 1..e])));
  }

  // ---------------------------------------------------------------------------
  // parseDate: /(\d+)\/(\d+)/, both groups kept as text and joined by "-"
  // ---------------------------------------------------------------------------

  /** `(\d+)\/(\d+)` matches s[p..e], the `/` at q. */
  predicate DatePattern(s: string, p: nat, q: nat, e: nat) {
    && p < q < e <= |s|
    && AllDigitsIn(s, p, q)
    && s[q] == '/'
    && q + 1 < e
    && AllDigitsIn(s, q + 1, e)
  }

  /** The first group is forced: it is the whole digit run at p. */
  lemma DatePatternSlash(s: string, p: nat, q: nat, e: nat)
    requires DatePattern(s, p, q, e)
    ensures q == DigitRunEnd(s, p)
    ensures e <= DigitRunEnd(s, q + 1)
  {
    var d := DigitRunEnd(s, p);
    var d' := DigitRunEnd(s, q + 1);
  }

  /** `exec` of `/(\d+)\/(\d+)/` from position `from` on: start, slash and end. */
  function ExecDate(s: string, from: nat): (r: Option<(nat, nat, nat)>)
    requires from <= |s|
    ensures r.None? ==> forall p: nat, q: nat, e: nat :: from <= p ==> !DatePattern(s, p, q, e)
    ensures r.Some? ==> from <= r.value.0 && DatePattern(s, r.value.0, r.value.1, r.value.2)
    ensures r.Some? ==> r.value.2 == |s| || !IsDecimalDigit(s[r.value.2])
    ensures r.Some? ==> forall p: nat, q: nat, e: nat :: from <= p < r.value.0 ==> !DatePattern(s, p, q, e)
    decreases |s| - from
  {
    if from == |s| then None
    else
      var q := DigitRunEnd(s, from);
      if from < q < |s| && s[q] == '/' && q + 1 < DigitRunEnd(s, q + 1) then
        Some((from, q, DigitRunEnd(s, q + 1)))
      else
        assert forall q': nat, e: nat :: !DatePattern(s, from, q', e) by {
          forall q': nat, e: nat | DatePattern(s, from, q', e) ensures false {
            DatePatternSlash(s, from, q', e);
          }
        }
        ExecDate(s, from + 1)
  }

  /** `parseDate`: the two groups of the first match joined by `-`, `""` without a match. */
  function ParseDate(text: string): string
  {
    match ExecDate(text, 0)
    case None => ""
    case Some((p, q, e)) => text[p..q] + "-" + text[q + 1..e]
  }

  /** The date is empty exactly when no `digits/digits` occurs. */
  lemma ParseDateEmptyWithoutPair(text: string)
    ensures ParseDate(text) == "" <==> forall p: nat, q: nat, e: nat :: !DatePattern(text, p, q, e)
  {
    var m := ExecDate(text, 0);
  }

  /** The date is read from the leftmost `digits/digits`, each run taken whole. */
  lemma ParseDateLeftmost(text: string, p: nat, q: nat, e: nat)
    requires DatePattern(text, p, q, e)
    requires e == |text| || !IsDecimalDigit(text[e])
    requires forall p': nat, q': nat, e': nat :: p' < p ==> !DatePattern(text, p', q', e')
    ensures ParseDate(text) == text[p..q] + "-" + text[q + 1..e]
  {
    var m := ExecDate(text, 0);
    assert m.value.0 == p;
    DatePatternSlash(text, p, q, e);
    DatePatternSlash(text, p, m.value.1, m.value.2);
    var d := DigitRunEnd(text, q + 1);
    assert d == e;
    assert m.value.2 == e;
  }
}
