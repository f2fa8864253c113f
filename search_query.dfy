/**
 * The search URL that `getData` in src/index.ts fetches: a template string
 * with the season, the fixed competition frame 1, one `competition_ids`
 * parameter per competition id (one for most seasons, two for the split
 * seasons) and an empty broadcaster filter.
 *
 * The partner of the builder is a reader of query strings in the manner of
 * `URLSearchParams` (split at the first `?`, then at every `&`, then at the
 * first `=`), with no percent-decoding since nothing here is encoded. The
 * lemmas show that the reader finds exactly the parameters the template
 * writes, in order, and that decoding them gives back the season and the ids.
 */
module SearchQuery {
  import opened JsRuntime

  /** Where the J.League data site answers match searches. */
  const Endpoint: string := "https://data.j-league.or.jp/SFMS01/search"

  /** The third column of the `url` table: one competition id, or a pair for a split season. */
  datatype CompetitionIds = Single(id: int) | Pair(first: int, second: int)

  /**
   * The URL of lines 27-29, `${n}` rendering each number in decimal. The
   * literal parts of the template are written out piece by piece, split at
   * the `?` and the `&`s; the characters are those of the template.
   */
  function SearchUrl(year: int, ids: CompetitionIds): string
  {
    match ids
    case Single(id) =>
      Endpoint + "?" + "competition_years=" + NumberToString(year)
        + "&" + "competition_frame_ids=1"
        + "&" + "competition_ids=" + NumberToString(id)
        + "&" + "tv_relay_station_name="
    case Pair(first, second) =>
      Endpoint + "?" + "competition_years=" + NumberToString(year)
        + "&" + "competition_frame_ids=1"
        + "&" + "competition_ids=" + NumberToString(first)
        + "&" + "competition_ids=" + NumberToString(second)
        + "&" + "tv_relay_station_name="
  }

  // ---------------------------------------------------------------------------
  // Reading a query string
  // ---------------------------------------------------------------------------

  /** What precedes the first `c`, and what follows it if there is one. */
  function CutAt(s: string, c: char): (r: (string, Option<string>))
    ensures r.1.None? ==> r.0 == s && c !in s
    ensures r.1.Some? ==> s == r.0 + [c] + r.1.value && c !in r.0
  {
    if s == [] then ("", None)
    else if s[0] == c then ("", Some(s[1..]))
    else
      var rest := CutAt(s[1..], c);
      ([s[0]] + rest.0, rest.1)
  }

  /** The pieces between the occurrences of `sep`; there is always at least one. */
  function SplitOn(s: string, sep: char): (parts: seq<string>)
    ensures |parts| > 0
    decreases |s|
  {
    var cut := CutAt(s, sep);
    if cut.1.None? then [s] else [cut.0] + SplitOn(cut.1.value, sep)
  }

  /** One `name=value` pair of a query; a piece without `=` has the empty value. */
  function NameValue(piece: string): (string, string)
  {
    var cut := CutAt(piece, '=');
    (cut.0, if cut.1.Some? then cut.1.value else "")
  }

  /** The parameters of a URL, in order: none when it has no `?`. */
  function QueryParameters(url: string): seq<(string, string)>
  {
    match CutAt(url, '?').1
    case None => []
    case Some(query) =>
      var pieces := SplitOn(query, '&');
      seq(|pieces|, i requires 0 <= i < |pieces| => NameValue(pieces[i]))
  }

  /** The value of a parameter when it has the given name. */
  function ValueIfNamed(p: (string, string), name: string): seq<string> {
    if p.0 == name then [p.1] else []
  }

  /** The values given to `name`, in order (`URLSearchParams.getAll`). */
  function ValuesOf(params: seq<(string, string)>, name: string): seq<string>
  {
    if params == [] then []
    else ValuesOf(params[..|params| - 1], name) + ValueIfNamed(params[|params| - 1], name)
  }

  /**
   * The search a URL asks for: one season, competition frame 1, one or two
   * competition ids; `None` for anything else.
   */
  function DecodeSearchUrl(url: string): Option<(int, CompetitionIds)>
  {
    var params := QueryParameters(url);
    var years := ValuesOf(params, "competition_years");
    var frames := ValuesOf(params, "competition_frame_ids");
    var ids := ValuesOf(params, "competition_ids");
    if |years| != 1 || frames != ["1"] || !(1 <= |ids| <= 2) then None
    else
      match ParseInt(years[0])
      case NaN => None
      case Int(year) =>
        match (ParseInt(ids[0]), ParseInt(ids[|ids| - 1]))
        case (Int(first), Int(last)) =>
          Some((year, if |ids| == 1 then Single(first) else Pair(first, last)))
        case _ => None
  }

  // ---------------------------------------------------------------------------
  // The reader finds what the template writes
  // ---------------------------------------------------------------------------

  /** `name=value`. */
  function Piece(param: (string, string)): string {
    param.0 + "=" + param.1
  }

  /** A query string written from its parameters, `&` between them. */
  function Query(params: seq<(string, string)>): string
  {
    if params == [] then ""
    else if |params| == 1 then Piece(params[0])
    else Piece(params[0]) + "&" + Query(params[1..])
  }

  /** A parameter the reader gives back unchanged: no `=` in its name, no `&` anywhere. */
  predicate Plain(param: (string, string)) {
    '=' !in param.0 && '&' !in param.0 && '&' !in param.1
  }

  lemma {:induction false} CutAtFirst(a: string, c: char, b: string)
    requires c !in a
    ensures CutAt(a + [c] + b, c) == (a, Some(b))
  {
    if a != [] {
      assert (a + [c] + b)[1..] == a[1..] + [c] + b;
      CutAtFirst(a[1..], c, b);
      assert [a[0]] + a[1..] == a;
    }
  }

  lemma PieceIsPlain(param: (string, string))
    requires Plain(param)
    ensures '&' !in Piece(param)
    ensures NameValue(Piece(param)) == param
  {
    assert "=" == ['='];
    CutAtFirst(param.0, '=', param.1);
  }

  /** Splitting a written query at `&` gives its pieces. */
  lemma {:induction false} SplitQuery(params: seq<(string, string)>)
    requires |params| > 0 && forall i :: 0 <= i < |params| ==> Plain(params[i])
    ensures SplitOn(Query(params), '&') == seq(|params|, i requires 0 <= i < |params| => Piece(params[i]))
  {
    PieceIsPlain(params[0]);
    if |params| == 1 {
      assert CutAt(Piece(params[0]), '&').1.None?;
    } else {
      assert "&" == ['&'];
      CutAtFirst(Piece(params[0]), '&', Query(params[1..]));
      SplitQuery(params[1..]);
    }
  }

  /** The endpoint has no query of its own. */
  lemma EndpointIsPlain()
    ensures '?' !in Endpoint
  {
    forall k | 0 <= k < |Endpoint| ensures Endpoint[k] != '?' {
    }
  }

  /** Reading back a query written from plain parameters gives those parameters. */
  lemma ReadWrittenQuery(base: string, params: seq<(string, string)>)
    requires '?' !in base
    requires |params| > 0 && forall i :: 0 <= i < |params| ==> Plain(params[i])
    ensures QueryParameters(base + "?" + Query(params)) == params
  {
    assert "?" == ['?'];
    CutAtFirst(base, '?', Query(params));
    SplitQuery(params);
    forall i | 0 <= i < |params| ensures NameValue(Piece(params[i])) == params[i] {
      PieceIsPlain(params[i]);
    }
  }

  /** A decimal rendering holds no `&` and no `=`. */
  lemma NumberTextIsPlain(n: int)
    ensures '&' !in NumberToString(n) && '=' !in NumberToString(n)
  {
    var s := NumberToString(n);
    forall k | 0 <= k < |s| ensures s[k] != '&' && s[k] != '=' {
    }
  }

  /** The parameters the template writes, in order. */
  function SearchParameters(year: int, ids: CompetitionIds): seq<(string, string)>
  {
    match ids
    case Single(id) =>
      [("competition_years", NumberToString(year)), ("competition_frame_ids", "1"),
       ("competition_ids", NumberToString(id)), ("tv_relay_station_name", "")]
    case Pair(first, second) =>
      [("competition_years", NumberToString(year)), ("competition_frame_ids", "1"),
       ("competition_ids", NumberToString(first)), ("competition_ids", NumberToString(second)),
       ("tv_relay_station_name", "")]
  }

  /** A name of the template holds neither `=` nor `&`. */
  lemma NameIsPlain(name: string)
    requires name in {"competition_years", "competition_frame_ids", "competition_ids", "tv_relay_station_name"}
    ensures '=' !in name && '&' !in name
  {
    forall k | 0 <= k < |name| ensures name[k] != '=' && name[k] != '&' {
    }
  }

  /** A query of one more parameter: its piece, `&`, and the rest. */
  lemma QueryCons(p: (string, string), rest: seq<(string, string)>)
    requires rest != []
    ensures Query([p] + rest) == Piece(p) + "&" + Query(rest)
  {
    assert ([p] + rest)[1..] == rest;
  }

  /** A query of four parameters, written out. */
  lemma QueryOfFour(p: (string, string), q: (string, string), r: (string, string), t: (string, string))
    ensures Query([p, q, r, t]) == Piece(p) + "&" + (Piece(q) + "&" + (Piece(r) + "&" + Piece(t)))
  {
    assert Query([t]) == Piece(t);
    QueryCons(r, [t]);
    assert [r] + [t] == [r, t];
    QueryCons(q, [r, t]);
    assert [q] + [r, t] == [q, r, t];
    QueryCons(p, [q, r, t]);
    assert [p] + [q, r, t] == [p, q, r, t];
  }

  /** A piece whose text is known. */
  lemma PieceIs(name: string, value: string, text: string)
    requires text == name + "=" + value
    ensures Piece((name, value)) == text
  {
  }

  /** Concatenation regrouped from the template's left-to-right order into the pieces of a query. */
  lemma RegroupFour(e: string, q: string, amp: string, n1: string, v1: string, t2: string,
                    n3: string, v3: string, t4: string)
    ensures e + q + n1 + v1 + amp + t2 + amp + n3 + v3 + amp + t4
         == e + q + ((n1 + v1) + amp + (t2 + amp + ((n3 + v3) + amp + t4)))
  {
  }

  /** As `RegroupFour`, with a second `name=value` piece before the last. */
  lemma RegroupFive(e: string, q: string, amp: string, n1: string, v1: string, t2: string,
                    n3: string, v3: string, n4: string, v4: string, t5: string)
    ensures e + q + n1 + v1 + amp + t2 + amp + n3 + v3 + amp + n4 + v4 + amp + t5
         == e + q + ((n1 + v1) + amp + (t2 + amp + ((n3 + v3) + amp + ((n4 + v4) + amp + t5))))
  {
  }

  /** The template with one competition id writes the four parameters in order. */
  lemma SingleTemplate(e: string, year: string, id: string)
    ensures e + "?" + "competition_years=" + year
        + "&" + "competition_frame_ids=1"
        + "&" + "competition_ids=" + id
        + "&" + "tv_relay_station_name="
      == e + "?" + Query([("competition_years", year), ("competition_frame_ids", "1"),
                          ("competition_ids", id), ("tv_relay_station_name", "")])
  {
    var p0, p1, p2, p3 := ("competition_years", year), ("competition_frame_ids", "1"),
                          ("competition_ids", id), ("tv_relay_station_name", "");
    QueryOfFour(p0, p1, p2, p3);
    PieceIs(p0.0, p0.1, "competition_years=" + year);
    PieceIs(p1.0, p1.1, "competition_frame_ids=1");
    PieceIs(p2.0, p2.1, "competition_ids=" + id);
    PieceIs(p3.0, p3.1, "tv_relay_station_name=");
    RegroupFour(e, "?", "&", "competition_years=", year, "competition_frame_ids=1",
                "competition_ids=", id, "tv_relay_station_name=");
  }

  /** The template with two competition ids writes the five parameters in order. */
  lemma PairTemplate(e: string, year: string, first: string, second: string)
    ensures e + "?" + "competition_years=" + year
        + "&" + "competition_frame_ids=1"
        + "&" + "competition_ids=" + first
        + "&" + "competition_ids=" + second
        + "&" + "tv_relay_station_name="
      == e + "?" + Query([("competition_years", year), ("competition_frame_ids", "1"),
                          ("competition_ids", first), ("competition_ids", second),
                          ("tv_relay_station_name", "")])
  {
    var p0, p1, p2, p3, p4 := ("competition_years", year), ("competition_frame_ids", "1"),
                              ("competition_ids", first), ("competition_ids", second),
                              ("tv_relay_station_name", "");
    QueryOfFour(p1, p2, p3, p4);
    QueryCons(p0, [p1, p2, p3, p4]);
    assert [p0] + [p1, p2, p3, p4] == [p0, p1, p2, p3, p4];
    PieceIs(p0.0, p0.1, "competition_years=" + year);
    PieceIs(p1.0, p1.1, "competition_frame_ids=1");
    PieceIs(p2.0, p2.1, "competition_ids=" + first);
    PieceIs(p3.0, p3.1, "competition_ids=" + second);
    PieceIs(p4.0, p4.1, "tv_relay_station_name=");
    RegroupFive(e, "?", "&", "competition_years=", year, "competition_frame_ids=1",
                "competition_ids=", first, "competition_ids=", second, "tv_relay_station_name=");
  }

  /** The URL of lines 27-29 is the endpoint followed by the query of `SearchParameters`. */
  lemma SearchUrlIsQuery(year: int, ids: CompetitionIds)
    ensures SearchUrl(year, ids) == Endpoint + "?" + Query(SearchParameters(year, ids))
  {
    match ids
    case Single(id) =>
      SingleTemplate(Endpoint, NumberToString(year), NumberToString(id));
    case Pair(first, second) =>
      PairTemplate(Endpoint, NumberToString(year), NumberToString(first), NumberToString(second));
  }

  /** Every parameter the template writes reads back unchanged. */
  lemma SearchParametersArePlain(year: int, ids: CompetitionIds)
    ensures forall i :: 0 <= i < |SearchParameters(year, ids)| ==> Plain(SearchParameters(year, ids)[i])
  {
    var ps := SearchParameters(year, ids);
    forall i | 0 <= i < |ps| ensures Plain(ps[i]) {
      NameIsPlain(ps[i].0);
      var values := match ids
        case Single(id) => [year, id]
        case Pair(first, second) => [year, first, second];
      assert ps[i].1 == "1" || ps[i].1 == "" || exists n :: n in values && ps[i].1 == NumberToString(n);
      if ps[i].1 != "1" && ps[i].1 != "" {
        var n :| n in values && ps[i].1 == NumberToString(n);
        NumberTextIsPlain(n);
      }
    }
  }

  /**
   * Read as `URLSearchParams` would, the URL of lines 27-29 carries exactly
   * the season, frame 1, the competition ids in order and the empty
   * broadcaster filter.
   */
  lemma SearchUrlParameters(year: int, ids: CompetitionIds)
    ensures QueryParameters(SearchUrl(year, ids)) == SearchParameters(year, ids)
  {
    SearchUrlIsQuery(year, ids);
    SearchParametersArePlain(year, ids);
    EndpointIsPlain();
    ReadWrittenQuery(Endpoint, SearchParameters(year, ids));
  }

  /** Adding a parameter at the end adds its value to those of its name. */
  lemma ValuesOfAppend(params: seq<(string, string)>, p: (string, string), name: string)
    ensures ValuesOf(params + [p], name) == ValuesOf(params, name) + ValueIfNamed(p, name)
  {
    assert (params + [p])[..|params|] == params;
  }

  /** The values of a name among four parameters, in order. */
  lemma ValuesOfFour(p0: (string, string), p1: (string, string), p2: (string, string),
                     p3: (string, string), name: string)
    ensures ValuesOf([p0, p1, p2, p3], name)
         == ValueIfNamed(p0, name) + ValueIfNamed(p1, name) + ValueIfNamed(p2, name) + ValueIfNamed(p3, name)
  {
    ValuesOfAppend([], p0, name);
    assert [] + [p0] == [p0];
    ValuesOfAppend([p0], p1, name);
    assert [p0] + [p1] == [p0, p1];
    ValuesOfAppend([p0, p1], p2, name);
    assert [p0, p1] + [p2] == [p0, p1, p2];
    ValuesOfAppend([p0, p1, p2], p3, name);
    assert [p0, p1, p2] + [p3] == [p0, p1, p2, p3];
  }

  /** The values of a name among five parameters, in order. */
  lemma ValuesOfFive(p0: (string, string), p1: (string, string), p2: (string, string),
                     p3: (string, string), p4: (string, string), name: string)
    ensures ValuesOf([p0, p1, p2, p3, p4], name)
         == ValueIfNamed(p0, name) + ValueIfNamed(p1, name) + ValueIfNamed(p2, name)
          + ValueIfNamed(p3, name) + ValueIfNamed(p4, name)
  {
    ValuesOfFour(p0, p1, p2, p3, name);
    ValuesOfAppend([p0, p1, p2, p3], p4, name);
    assert [p0, p1, p2, p3] + [p4] == [p0, p1, p2, p3, p4];
  }

  /** The four names of the template are different from each other. */
  lemma NamesDiffer()
    ensures "competition_years" != "competition_frame_ids"
    ensures "competition_years" != "competition_ids"
    ensures "competition_years" != "tv_relay_station_name"
    ensures "competition_frame_ids" != "competition_ids"
    ensures "competition_frame_ids" != "tv_relay_station_name"
    ensures "competition_ids" != "tv_relay_station_name"
  {
    assert |"competition_years"| == 17 && |"competition_ids"| == 15 && |"competition_frame_ids"| == 21;
    assert "competition_frame_ids"[0] != "tv_relay_station_name"[0];
  }

  /** What `getAll` finds for each name the template writes. */
  lemma SearchParameterValues(year: int, ids: CompetitionIds)
    ensures ValuesOf(SearchParameters(year, ids), "competition_years") == [NumberToString(year)]
    ensures ValuesOf(SearchParameters(year, ids), "competition_frame_ids") == ["1"]
    ensures ValuesOf(SearchParameters(year, ids), "competition_ids")
         == match ids
            case Single(id) => [NumberToString(id)]
            case Pair(first, second) => [NumberToString(first), NumberToString(second)]
  {
    NamesDiffer();
    var ps := SearchParameters(year, ids);
    var y, f, c := "competition_years", "competition_frame_ids", "competition_ids";
    match ids
    case Single(id) =>
      ValuesOfFour(ps[0], ps[1], ps[2], ps[3], y);
      ValuesOfFour(ps[0], ps[1], ps[2], ps[3], f);
      ValuesOfFour(ps[0], ps[1], ps[2], ps[3], c);
    case Pair(first, second) =>
      ValuesOfFive(ps[0], ps[1], ps[2], ps[3], ps[4], y);
      ValuesOfFive(ps[0], ps[1], ps[2], ps[3], ps[4], f);
      ValuesOfFive(ps[0], ps[1], ps[2], ps[3], ps[4], c);
  }

  /** A URL carrying the template's parameters decodes to the season and ids they were written from. */
  lemma DecodeSearchParameters(url: string, year: int, ids: CompetitionIds)
    requires QueryParameters(url) == SearchParameters(year, ids)
    ensures DecodeSearchUrl(url) == Some((year, ids))
  {
    SearchParameterValues(year, ids);
    ParseIntOfNumberToString(year);
    match ids
    case Single(id) =>
      ParseIntOfNumberToString(id);
    case Pair(first, second) =>
      ParseIntOfNumberToString(first);
      ParseIntOfNumberToString(second);
  }

  /**
   * Decoding the URL of lines 27-29 gives back the season and the
   * competition ids it was built from, in order.
   */
  lemma DecodeSearchUrlRoundTrip(year: int, ids: CompetitionIds)
    ensures DecodeSearchUrl(SearchUrl(year, ids)) == Some((year, ids))
  {
    SearchUrlParameters(year, ids);
    DecodeSearchParameters(SearchUrl(year, ids), year, ids);
  }
}
