/**
 * The match record of src/index.ts and the order `parseMatches` leaves the
 * records in: `Array.prototype.sort` with the comparator
 * `(a, b) => a.series - b.series`, modelled by a stable insertion sort on the
 * array and specified by the function `SortedBySeries`. The order among
 * records whose round reads as `NaN` is left to the engine by the standard;
 * the model fixes that of a stable insertion sort.
 */
module MatchSort {
  import opened JsRuntime

  /** `MatchData`: `None` stands for `null`; a number may be `NaN`. */
  datatype MatchData = MatchData(
    series: Option<JsInt>,
    homeTeam: string,
    awayTeam: string,
    homeScore: Option<JsInt>,
    awayScore: Option<JsInt>,
    date: string)

  // ---------------------------------------------------------------------------
  // The comparator and the stable sort
  // ---------------------------------------------------------------------------

  /**
   * The number `x.series` contributes to `a.series - b.series`: `null`
   * becomes 0; `None` marks `NaN`, which makes the difference `NaN`.
   */
  function SortKey(m: MatchData): Option<int> {
    match m.series
    case None => Some(0)
    case Some(NaN) => None
    case Some(Int(v)) => Some(v)
  }

  /**
   * The comparator as `Array.prototype.sort` reads it: the difference of the
   * keys, and 0 when it is `NaN` (SortCompare, ECMA-262 section 23.1.3.30.2).
   * A positive value puts `a` after `b`.
   */
  function Compare(a: MatchData, b: MatchData): int {
    if SortKey(a).Some? && SortKey(b).Some? then SortKey(a).value - SortKey(b).value else 0
  }

  /** No record's round reads as `NaN`: the comparator is then a total preorder. */
  predicate NoNaN(s: seq<MatchData>) {
    forall i :: 0 <= i < |s| ==> SortKey(s[i]).Some?
  }

  /** No two neighbours that the comparator would swap. */
  predicate InComparatorOrder(s: seq<MatchData>) {
    forall i :: 0 < i < |s| ==> Compare(s[i - 1], s[i]) <= 0
  }

  /** Ascending by round, `null` counted as 0. */
  predicate NonDecreasing(s: seq<MatchData>)
    requires NoNaN(s)
  {
    forall i, j :: 0 <= i < j < |s| ==> SortKey(s[i]).value <= SortKey(s[j]).value
  }

  /** The record itself when its key is `key`, else nothing. */
  function KeyPart(m: MatchData, key: Option<int>): seq<MatchData> {
    if SortKey(m) == key then [m] else []
  }

  /** The records whose key is `key`, in the order they appear. */
  function WithKey(s: seq<MatchData>, key: Option<int>): seq<MatchData>
  {
    if s == [] then [] else WithKey(s[..|s| - 1], key) + KeyPart(s[|s| - 1], key)
  }

  /** Insertion of `x` into an ordered prefix: it moves left past every strictly greater record. */
  function InsertBySeries(sorted: seq<MatchData>, x: MatchData): seq<MatchData>
  {
    if sorted == [] then [x]
    else if Compare(sorted[|sorted| - 1], x) > 0 then
      InsertBySeries(sorted[..|sorted| - 1], x) + [sorted[|sorted| - 1]]
    else sorted + [x]
  }

  /** `result.sort((a, b) => a.series - b.series)` as a value. */
  function SortedBySeries(s: seq<MatchData>): seq<MatchData>
  {
    if s == [] then [] else InsertBySeries(SortedBySeries(s[..|s| - 1]), s[|s| - 1])
  }

  lemma {:induction false} InsertPermutes(sorted: seq<MatchData>, x: MatchData)
    ensures |InsertBySeries(sorted, x)| == |sorted| + 1
    ensures multiset(InsertBySeries(sorted, x)) == multiset(sorted) + multiset{x}
  {
    if sorted != [] && Compare(sorted[|sorted| - 1], x) > 0 {
      var init := sorted[..|sorted| - 1];
      InsertPermutes(init, x);
      assert sorted == init + [sorted[|sorted| - 1]];
    }
  }

  /** The sort returns exactly the records it was given. */
  lemma {:induction false} SortPermutes(s: seq<MatchData>)
    ensures |SortedBySeries(s)| == |s|
    ensures multiset(SortedBySeries(s)) == multiset(s)
  {
    if s != [] {
      var init := s[..|s| - 1];
      SortPermutes(init);
      InsertPermutes(SortedBySeries(init), s[|s| - 1]);
      assert s == init + [s[|s| - 1]];
    }
  }

  lemma {:induction false} InsertKeepsOrder(sorted: seq<MatchData>, x: MatchData)
    requires InComparatorOrder(sorted)
    ensures |InsertBySeries(sorted, x)| == |sorted| + 1
    ensures InComparatorOrder(InsertBySeries(sorted, x))
    ensures InsertBySeries(sorted, x)[|sorted|] == x
         || (sorted != [] && InsertBySeries(sorted, x)[|sorted|] == sorted[|sorted| - 1])
  {
    InsertPermutes(sorted, x);
    if sorted != [] && Compare(sorted[|sorted| - 1], x) > 0 {
      var init, last := sorted[..|sorted| - 1], sorted[|sorted| - 1];
      InsertKeepsOrder(init, x);
      var r := InsertBySeries(init, x);
      assert Compare(r[|init|], last) <= 0 by {
        if r[|init|] != x {
          assert sorted[|init| - 1] == r[|init|];
        }
      }
      forall i | 0 < i < |r + [last]| ensures Compare((r + [last])[i - 1], (r + [last])[i]) <= 0 {
        if i < |r| {
          assert (r + [last])[i - 1] == r[i - 1] && (r + [last])[i] == r[i];
        }
      }
    } else if sorted != [] {
      forall i | 0 < i < |sorted + [x]| ensures Compare((sorted + [x])[i - 1], (sorted + [x])[i]) <= 0 {
        if i < |sorted| {
          assert (sorted + [x])[i - 1] == sorted[i - 1] && (sorted + [x])[i] == sorted[i];
        }
      }
    }
  }

  /** The sort leaves no neighbours that the comparator would swap. */
  lemma {:induction false} SortOrders(s: seq<MatchData>)
    ensures InComparatorOrder(SortedBySeries(s))
  {
    if s != [] {
      SortOrders(s[..|s| - 1]);
      InsertKeepsOrder(SortedBySeries(s[..|s| - 1]), s[|s| - 1]);
    }
  }

  /** Without `NaN`, neighbours in order means ascending throughout. */
  lemma {:induction false} NeighboursOrderAll(s: seq<MatchData>)
    requires NoNaN(s) && InComparatorOrder(s)
    ensures NonDecreasing(s)
  {
    if |s| > 1 {
      var init := s[..|s| - 1];
      NeighboursOrderAll(init);
      forall i, j | 0 <= i < j < |s| ensures SortKey(s[i]).value <= SortKey(s[j]).value {
        if j < |s| - 1 {
          assert init[i] == s[i] && init[j] == s[j];
        } else if i < j - 1 {
          assert init[i] == s[i] && init[j - 1] == s[j - 1];
        }
      }
    }
  }

  /** When no round reads as `NaN`, the sorted records ascend by round, `null` as 0. */
  lemma SortAscends(s: seq<MatchData>)
    requires NoNaN(s)
    ensures NoNaN(SortedBySeries(s)) && NonDecreasing(SortedBySeries(s))
  {
    var r := SortedBySeries(s);
    SortPermutes(s);
    SortOrders(s);
    forall i | 0 <= i < |r| ensures SortKey(r[i]).Some? {
      assert r[i] in multiset(s);
    }
    NeighboursOrderAll(r);
  }

  lemma {:induction false} WithKeyAppend(a: seq<MatchData>, b: seq<MatchData>, key: Option<int>)
    ensures WithKey(a + b, key) == WithKey(a, key) + WithKey(b, key)
  {
    if b != [] {
      WithKeyAppend(a, b[..|b| - 1], key);
      assert (a + b)[..|a + b| - 1] == a + b[..|b| - 1];
    } else {
      assert a + b == a;
    }
  }

  lemma WithKeyOne(x: MatchData, key: Option<int>)
    ensures WithKey([x], key) == KeyPart(x, key)
  {
    assert [x][..0] == [];
  }

  lemma {:induction false} InsertKeepsKeyOrder(sorted: seq<MatchData>, x: MatchData, key: Option<int>)
    ensures WithKey(InsertBySeries(sorted, x), key) == WithKey(sorted, key) + KeyPart(x, key)
  {
    if sorted == [] {
      WithKeyOne(x, key);
    } else {
      var init, last := sorted[..|sorted| - 1], sorted[|sorted| - 1];
      if Compare(last, x) > 0 {
        InsertKeepsKeyOrder(init, x, key);
        WithKeyAppend(InsertBySeries(init, x), [last], key);
        WithKeyOne(last, key);
        assert SortKey(last) != SortKey(x);
        assert KeyPart(x, key) == [] || KeyPart(last, key) == [];
      } else {
        WithKeyAppend(sorted, [x], key);
        WithKeyOne(x, key);
      }
    }
  }

  /** The sort is stable: for every key, those records keep their input order. */
  lemma {:induction false} SortIsStable(s: seq<MatchData>, key: Option<int>)
    ensures WithKey(SortedBySeries(s), key) == WithKey(s, key)
  {
    if s != [] {
      SortIsStable(s[..|s| - 1], key);
      InsertKeepsKeyOrder(SortedBySeries(s[..|s| - 1]), s[|s| - 1], key);
    }
  }

  /**
   * Insertion puts `x` right after the last record the comparator does not
   * rank above it, when every record from there on ranks above it.
   */
  lemma {:induction false} InsertPosition(sorted: seq<MatchData>, j: nat, x: MatchData)
    requires j <= |sorted|
    requires j == 0 || Compare(sorted[j - 1], x) <= 0
    requires forall k :: j <= k < |sorted| ==> Compare(sorted[k], x) > 0
    ensures InsertBySeries(sorted, x) == sorted[..j] + [x] + sorted[j..]
  {
    if j < |sorted| {
      var init := sorted[..|sorted| - 1];
      InsertPosition(init, j, x);
      assert init[..j] == sorted[..j];
      assert sorted[j..] == init[j..] + [sorted[|sorted| - 1]];
    } else {
      assert sorted[..j] == sorted;
    }
  }

  // ---------------------------------------------------------------------------
  // The in-place sort
  // ---------------------------------------------------------------------------

  /**
   * The scan of one pass: every record of `a[..i]` from the end down that the
   * comparator ranks above `x` moves one place right; `j` is the hole left.
   */
  method ShiftGreater(a: array<MatchData>, i: nat, x: MatchData) returns (j: nat)
    requires i < a.Length
    modifies a
    ensures j <= i
    ensures forall k :: 0 <= k < j ==> a[k] == old(a[k])
    ensures forall k :: j < k <= i ==> a[k] == old(a[k - 1])
    ensures forall k :: i < k < a.Length ==> a[k] == old(a[k])
    ensures j == 0 || Compare(old(a[j - 1]), x) <= 0
    ensures forall k :: j <= k < i ==> Compare(old(a[k]), x) > 0
  {
    j := i;
    while j > 0 && Compare(a[j - 1], x) > 0
      invariant j <= i
      invariant forall k :: 0 <= k < j ==> a[k] == old(a[k])
      invariant forall k :: j < k <= i ==> a[k] == old(a[k - 1])
      invariant forall k :: i < k < a.Length ==> a[k] == old(a[k])
      invariant forall k :: j <= k < i ==> Compare(old(a[k]), x) > 0
    {
      a[j] := a[j - 1];
      j := j - 1;
    }
  }

  /**
   * One pass of the sort: `a[i]` moves left past every record of the ordered
   * prefix that the comparator ranks above it; the rest of the array stays.
   */
  method InsertAt(a: array<MatchData>, i: nat)
    requires i < a.Length
    modifies a
    ensures a[..i + 1] == InsertBySeries(old(a[..i]), old(a[i]))
    ensures a[i + 1..] == old(a[i + 1..])
  {
    var x := a[i];
    ghost var sorted := a[..i];
    ghost var rest := a[i + 1..];
    var j := ShiftGreater(a, i, x);
    a[j] := x;
    InsertPosition(sorted, j, x);
    ghost var inserted := sorted[..j] + [x] + sorted[j..];
    forall k | 0 <= k <= i ensures a[k] == inserted[k] {
      if k < j {
        assert a[k] == sorted[k];
        assert inserted[k] == sorted[k];
      } else if j < k {
        assert a[k] == sorted[k - 1];
        assert inserted[k] == sorted[k - 1];
      }
    }
    assert a[..i + 1] == inserted;
    forall k | 0 <= k < |rest| ensures a[i + 1..][k] == rest[k] {
      assert a[i + 1 + k] == rest[k];
    }
    assert a[i + 1..] == rest;
  }

  /** `a.sort((a, b) => a.series - b.series)`: insertion sort in place. */
  method SortBySeries(a: array<MatchData>)
    modifies a
    ensures a[..] == SortedBySeries(old(a[..]))
  {
    ghost var input := a[..];
    var i := 0;
    while i < a.Length
      invariant 0 <= i <= a.Length
      invariant a[..i] == SortedBySeries(input[..i])
      invariant a[i..] == input[i..]
    {
      assert a[i] == input[i];
      InsertAt(a, i);
      assert input[..i + 1][..i] == input[..i];
      i := i + 1;
    }
    assert input[..a.Length] == input;
  }
}
