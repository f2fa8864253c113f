/**
 * The pieces of ECMAScript regular-expression matching (ECMA-262 section 22.2)
 * that the three patterns of src/index.ts need: `.` matches any character
 * but a line terminator, `.*` is greedy and gives characters back one at a
 * time, `\d+` is a greedy run of ASCII digits, and `exec` tries the start
 * positions from left to right.
 */
module JsRegex {
  import opened JsRuntime

  /** No line terminator among s[lo..hi]: `.*` can span exactly these stretches. */
  predicate NoLineTerminatorIn(s: string, lo: nat, hi: nat)
    requires lo <= hi <= |s|
  {
    forall k :: lo <= k < hi ==> !IsLineTerminator(s[k])
  }

  /** Every character of s[lo..hi] matches `\d`. */
  predicate AllDigitsIn(s: string, lo: nat, hi: nat)
    requires lo <= hi <= |s|
  {
    forall k :: lo <= k < hi ==> IsDecimalDigit(s[k])
  }

  /** Where a `.*` started at `from` runs out: the next line terminator, or the end. */
  function LineEnd(s: string, from: nat): (e: nat)
    requires from <= |s|
    ensures from <= e <= |s|
    ensures NoLineTerminatorIn(s, from, e)
    ensures e == |s| || IsLineTerminator(s[e])
    decreases |s| - from
  {
    if from == |s| || IsLineTerminator(s[from]) then from else LineEnd(s, from + 1)
  }

  /** Where a `\d+` started at `from` runs out (equal to `from` when there is no digit). */
  function DigitRunEnd(s: string, from: nat): (e: nat)
    requires from <= |s|
    ensures from <= e <= |s|
    ensures AllDigitsIn(s, from, e)
    ensures e == |s| || !IsDecimalDigit(s[e])
    decreases |s| - from
  {
    if from == |s| || !IsDecimalDigit(s[from]) then from else DigitRunEnd(s, from + 1)
  }

  /** The last index in [lo, hi) holding `c`, if any. */
  function LastIndexIn(s: string, c: char, lo: nat, hi: nat): (r: Option<nat>)
    requires lo <= hi <= |s|
    ensures r.None? ==> forall k :: lo <= k < hi ==> s[k] != c
    ensures r.Some? ==> lo <= r.value < hi && s[r.value] == c
    ensures r.Some? ==> forall k :: r.value < k < hi ==> s[k] != c
    decreases hi
  {
    if hi == lo then None
    else if s[hi - 1] == c then Some(hi - 1)
    else LastIndexIn(s, c, lo, hi - 1)
  }

  /**
   * `.*` started at `from` can stop right before a literal `c` at `k`: the
   * characters it consumed, s[from..k], hold no line terminator.
   */
  predicate DotStarThen(s: string, from: nat, k: nat, c: char)
  {
    from <= k < |s| && s[k] == c && NoLineTerminatorIn(s, from, k)
  }

  /**
   * The subpattern `.*c` matched at `from`: the greedy `.*` first runs to the
   * end of the line and then backs off, so the literal lands on the LAST
   * reachable `c`.
   */
  function GreedyDotStarThen(s: string, from: nat, c: char): (r: Option<nat>)
    requires from <= |s|
    requires !IsLineTerminator(c)
    ensures r.None? ==> forall k :: !DotStarThen(s, from, k, c)
    ensures r.Some? ==> DotStarThen(s, from, r.value, c)
    ensures r.Some? ==> forall k :: r.value < k ==> !DotStarThen(s, from, k, c)
  {
    var e := LineEnd(s, from);
    var r := LastIndexIn(s, c, from, e);
    assert forall k: nat :: DotStarThen(s, from, k, c) ==> k < e;
    r
  }
}
