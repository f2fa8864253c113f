/**
 * `parseMatches` of src/index.ts: one match record per row of the results
 * table, collected in a growing array and then sorted by round with the
 * comparator `(a, b) => a.series - b.series`.
 *
 * The document is abstracted to the rows it yields, each reduced to the six
 * cells the parser reads (columns 1, 3, 4, 6, 7 and 8). A cell whose selector
 * finds no element makes the source throw while reading `.textContent`; the
 * model returns `MissingCell` for the first such row instead.
 *
 * The sort itself, and what it guarantees, is in the module `MatchSort`.
 */
module MatchParser {
  import opened JsRuntime
  import opened TextNormalizers
  import opened MatchSort

  /** The text of a cell, or `None` when the selector matched no element. */
  type Cell = Option<string>

  /** One `tr` of `.search-table tbody`: year, round, date, home, score, away. */
  datatype Row = Row(year: Cell, round: Cell, date: Cell, home: Cell, score: Cell, away: Cell)
  {
    predicate Complete() {
      year.Some? && round.Some? && date.Some? && home.Some? && score.Some? && away.Some?
    }
  }

  /** What `parseMatches` ends with: the sorted records, or the row it threw on. */
  datatype ParseOutcome = Parsed(matches: seq<MatchData>) | MissingCell(row: nat)

  /** The record built from one row (the object literal pushed in the loop). */
  function MakeRecord(row: Row): MatchData
    requires row.Complete()
  {
    var score := SeparateScore(row.score.value);
    MatchData(
      FindSeries(row.round.value),
      row.home.value,
      row.away.value,
      if score.Some? then Some(score.value.0) else None,
      if score.Some? then Some(score.value.1) else None,
      row.year.value + "-" + ParseDate(row.date.value))
  }

  /**
   * What a record says about its row: the round is `null` exactly when the
   * half-width round cell holds no `第…節` on one line; the team names are
   * the cell texts untouched; the scores are both `null` or both set, `null`
   * exactly when the score cell has no `-`, and otherwise the two halves of
   * `separateScore`; the date is the year cell, a `-` and the `parseDate`
   * text of the date cell, and stops after the `-` exactly when the date cell
   * holds no `digits/digits`.
   */
  lemma RecordFields(row: Row, m: MatchData)
    requires row.Complete() && m == MakeRecord(row)
    ensures m.series.None? <==> forall i: nat, j: nat :: !SeriesMatch(ToHalfWidth(row.round.value), i, j)
    ensures m.homeTeam == row.home.value && m.awayTeam == row.away.value
    ensures m.homeScore.None? <==> m.awayScore.None?
    ensures m.homeScore.None? <==> forall k :: 0 <= k < |row.score.value| ==> row.score.value[k] != '-'
    ensures m.homeScore.Some? ==> SeparateScore(row.score.value) == Some((m.homeScore.value, m.awayScore.value))
    ensures |m.date| > |row.year.value| && m.date[..|row.year.value|] == row.year.value
    ensures m.date[|row.year.value|] == '-'
    ensures m.date == row.year.value + "-" + ParseDate(row.date.value)
    ensures |m.date| == |row.year.value| + 1
        <==> forall p: nat, q: nat, e: nat :: !DatePattern(row.date.value, p, q, e)
  {
    FindSeriesNull(row.round.value);
    SeparateScoreNull(row.score.value);
    ParseDateEmptyWithoutPair(row.date.value);
    assert m.date[..|row.year.value|] == row.year.value;
  }

  /** The record of every row, in table order. */
  function Records(rows: seq<Row>): (ms: seq<MatchData>)
    requires forall i :: 0 <= i < |rows| ==> rows[i].Complete()
  {
    seq(|rows|, i requires 0 <= i < |rows| => MakeRecord(rows[i]))
  }

  /** Taking one more row adds its record. */
  lemma RecordsAppend(rows: seq<Row>, i: nat)
    requires i < |rows| && forall k :: 0 <= k <= i ==> rows[k].Complete()
    ensures Records(rows[..i + 1]) == Records(rows[..i]) + [MakeRecord(rows[i])]
  {
    var longer, shorter := rows[..i + 1], rows[..i];
    var extended := Records(shorter) + [MakeRecord(rows[i])];
    assert |Records(longer)| == |extended|;
    forall k | 0 <= k <= i ensures Records(longer)[k] == extended[k] {
      if k < i {
        assert longer[k] == shorter[k];
        assert extended[k] == Records(shorter)[k];
      } else {
        assert longer[k] == rows[i];
      }
    }
  }

  /**
   * The loop of `parseMatches`: a record per row, pushed in table order.
   * Stops at the first row with a missing cell.
   */
  method CollectRecords(rows: seq<Row>) returns (out: ParseOutcome)
    ensures out.Parsed? <==> forall i :: 0 <= i < |rows| ==> rows[i].Complete()
    ensures out.MissingCell? ==> out.row < |rows| && !rows[out.row].Complete()
    ensures out.MissingCell? ==> forall i :: 0 <= i < out.row ==> rows[i].Complete()
    ensures out.Parsed? ==> |out.matches| == |rows|
    ensures out.Parsed? ==> forall i :: 0 <= i < |rows| ==> out.matches[i] == MakeRecord(rows[i])
    ensures out.Parsed? ==> out.matches == Records(rows)
  {
    var result: seq<MatchData> := [];
    var i := 0;
    while i < |rows|
      invariant 0 <= i <= |rows|
      invariant forall k :: 0 <= k < i ==> rows[k].Complete()
      invariant result == Records(rows[..i])
    {
      if !rows[i].Complete() {
        return MissingCell(i);
      }
      RecordsAppend(rows, i);
      result := result + [MakeRecord(rows[i])];
      i := i + 1;
    }
    assert rows[..i] == rows;
    return Parsed(result);
  }

  /**
   * `parseMatches`: the records of all rows, sorted by round. Fails on the
   * first row with a missing cell.
   */
  method ParseMatches(rows: seq<Row>) returns (out: ParseOutcome)
    ensures out.Parsed? <==> forall i :: 0 <= i < |rows| ==> rows[i].Complete()
    ensures out.MissingCell? ==> out.row < |rows| && !rows[out.row].Complete()
    ensures out.MissingCell? ==> forall i :: 0 <= i < out.row ==> rows[i].Complete()
    ensures out.Parsed? ==> out.matches == SortedBySeries(Records(rows))
    ensures out.Parsed? ==> |out.matches| == |rows| && multiset(out.matches) == multiset(Records(rows))
    ensures out.Parsed? ==> InComparatorOrder(out.matches)
    ensures out.Parsed? && NoNaN(Records(rows)) ==> NoNaN(out.matches) && NonDecreasing(out.matches)
    ensures out.Parsed? ==> forall key :: WithKey(out.matches, key) == WithKey(Records(rows), key)
    ensures out.Parsed? ==>
      forall m :: m in out.matches ==> exists i :: 0 <= i < |rows| && rows[i].Complete() && m == MakeRecord(rows[i])
  {
    out := CollectRecords(rows);
    if out.Parsed? {
      var result := out.matches;
      var a := new MatchData[|result|](k requires 0 <= k < |result| => result[k]);
      assert a[..] == result;
      SortBySeries(a);
      SortPermutes(result);
      SortOrders(result);
      if NoNaN(result) {
        SortAscends(result);
      }
      forall key {
        SortIsStable(result, key);
      }
      forall m | m in a[..] ensures exists i :: 0 <= i < |rows| && rows[i].Complete() && m == MakeRecord(rows[i]) {
        assert m in multiset(a[..]);
        var i :| 0 <= i < |result| && result[i] == m;
        assert m == MakeRecord(rows[i]);
      }
      out := Parsed(a[..]);
    }
  }
}
