/**
 * The TMDB helper (gst_gui/utils/tmdb_helper.py): how the API key travels
 * with a request, which search request is sent, how the records of the
 * response become results, and how the best match is picked.
 *
 * The network is an input: `response` is the list under `results` in the
 * JSON the server sent back, or None when the request failed in any way
 * (network error, bad status, undecodable JSON). Numbers are Python `int`
 * parsing on ASCII text.
 */
module Tmdb {
  import opened Common
  import opened Text

  const BaseUrl: string := "https://api.themoviedb.org/3"

  // ---------------------------------------------------------------------
  // Integers in text: Python's int(str)
  // ---------------------------------------------------------------------

  predicate AllDigits(s: string) {
    forall i :: 0 <= i < |s| ==> IsDigit(s[i])
  }

  /** The value of a run of decimal digits. */
  function DigitsValue(s: string): nat
    requires AllDigits(s)
  {
    if s == [] then 0 else DigitsValue(s[..|s| - 1]) * 10 + (s[|s| - 1] as int - '0' as int)
  }

  /**
   * `int(s)` for a string: surrounding whitespace is ignored, then an
   * optional sign and at least one digit; anything else is a ValueError,
   * here None.
   */
  function ParseInt(s: string): Option<int> {
    var t := Trim(s);
    if t == [] then None
    else if t[0] == '-' || t[0] == '+' then
      var digits := t[1..];
      if digits != [] && AllDigits(digits) then
        var magnitude: int := DigitsValue(digits);
        Some(if t[0] == '-' then -magnitude else magnitude)
      else None
    else if AllDigits(t) then Some(DigitsValue(t))
    else None
  }

  /** `str(n)` for a natural number. */
  function Decimal(n: nat): (r: string)
    ensures r != [] && AllDigits(r)
  {
    if n < 10 then [('0' as int + n) as char]
    else Decimal(n / 10) + [('0' as int + n % 10) as char]
  }

  lemma {:induction false} DigitsOfDecimal(n: nat)
    ensures DigitsValue(Decimal(n)) == n
  {
    if n >= 10 {
      DigitsOfDecimal(n / 10);
      var d := Decimal(n);
      assert d[..|d| - 1] == Decimal(n / 10);
    }
  }

  /** `int(str(n)) == n`: parsing reads back what printing wrote. */
  lemma ParseDecimal(n: nat)
    ensures ParseInt(Decimal(n)) == Some(n)
  {
    var d := Decimal(n);
    assert d[0] !in Whitespace && d[|d| - 1] !in Whitespace;
    assert StripLeft(d, Whitespace) == d;
    assert Trim(d) == d;
    DigitsOfDecimal(n);
  }

  /** Text without a digit never parses as a number. */
  lemma NoDigitNoNumber(s: string)
    requires forall i :: 0 <= i < |s| ==> !IsDigit(s[i])
    ensures ParseInt(s) == None
  {
    var t := Trim(s);
    var l := StripLeft(s, Whitespace);
    StripLeftSuffix(s, Whitespace);
    StripRightPrefix(l, Whitespace);
    if t != [] {
      assert t == l[..|t|] && l == s[|s| - |l|..];
      assert t[|t| - 1] == s[|s| - |l| + |t| - 1];
    }
  }

  // ---------------------------------------------------------------------
  // The key on the request
  // ---------------------------------------------------------------------

  /** `_is_bearer_token`: an empty key is not; otherwise exactly two dots and more than 100 characters. */
  predicate IsBearerToken(apiKey: string) {
    if apiKey == [] then false else Count(apiKey, '.') == 2 && |apiKey| > 100
  }

  /** A value of the query string: text or an integer. */
  datatype Param = StrParam(s: string) | IntParam(n: int)

  /** The query parameters once the key is attached: an API key goes into them, a bearer token does not. */
  function WithKey(params: map<string, Param>, apiKey: string, bearer: bool): map<string, Param> {
    if bearer then params else params["api_key" := StrParam(apiKey)]
  }

  /** The headers once the key is attached: a bearer token goes into them, an API key does not. */
  function KeyHeaders(apiKey: string, bearer: bool): map<string, string> {
    if bearer then map["Authorization" := "Bearer " + apiKey] else map[]
  }

  /**
   * The key is carried in exactly one place, unchanged, and the other
   * parameters are left as they were.
   */
  lemma KeyInExactlyOnePlace(params: map<string, Param>, apiKey: string, bearer: bool)
    requires "api_key" !in params
    ensures ("api_key" in WithKey(params, apiKey, bearer)) != ("Authorization" in KeyHeaders(apiKey, bearer))
    ensures bearer ==> KeyHeaders(apiKey, bearer) == map["Authorization" := "Bearer " + apiKey]
    ensures !bearer ==> WithKey(params, apiKey, bearer)["api_key"] == StrParam(apiKey) && KeyHeaders(apiKey, bearer) == map[]
    ensures forall k :: k in params ==> k in WithKey(params, apiKey, bearer) && WithKey(params, apiKey, bearer)[k] == params[k]
    ensures forall k :: k in WithKey(params, apiKey, bearer) && k != "api_key" ==> k in params
  {
  }

  /** A mutable query-parameter dict. */
  class Params {
    var items: map<string, Param>

    constructor(items: map<string, Param>)
      ensures this.items == items
    {
      this.items := items;
    }
  }

  // ---------------------------------------------------------------------
  // Search requests and results
  // ---------------------------------------------------------------------

  /** The year filter, if any: a non-empty year that parses as an integer in 1900..2030. */
  function YearFilter(year: Option<string>): (r: Option<int>)
    ensures r.Some? <==> year.Some? && ParseInt(year.value).Some? && 1900 <= ParseInt(year.value).value <= 2030
    ensures r.Some? ==> r.value == ParseInt(year.value).value
  {
    if year.Some? && year.value != [] then
      match ParseInt(year.value)
      case Some(n) => if 1900 <= n <= 2030 then Some(n) else None
      case None => None
    else None
  }

  /** The search parameters before the key is attached. */
  function SearchParams(title: string, isSeries: bool, year: Option<string>): map<string, Param> {
    var params := map["query" := StrParam(Trim(title)), "language" := StrParam("en-US"), "include_adult" := StrParam("false")];
    match YearFilter(year)
    case Some(n) => params[(if isSeries then "first_air_date_year" else "year") := IntParam(n)]
    case None => params
  }

  function SearchUrl(isSeries: bool): string {
    BaseUrl + (if isSeries then "/search/tv" else "/search/movie")
  }

  /** What goes over the wire: the endpoint, the query parameters and the headers. */
  datatype Request = Request(url: string, params: map<string, Param>, headers: map<string, string>)

  /** The request `search_title` sends: none without a key or with a blank title. */
  function SearchRequest(apiKey: string, bearer: bool, title: string, isSeries: bool, year: Option<string>): Option<Request> {
    if apiKey == [] || IsBlank(title) then None
    else Some(Request(SearchUrl(isSeries), WithKey(SearchParams(title, isSeries, year), apiKey, bearer), KeyHeaders(apiKey, bearer)))
  }

  /**
   * Nothing is sent without a key or with a blank title; otherwise the
   * query is the stripped title, in English, without adult titles, sent to
   * the TV or the movie endpoint.
   */
  lemma SearchRequestShape(apiKey: string, bearer: bool, title: string, isSeries: bool, year: Option<string>)
    ensures var r := SearchRequest(apiKey, bearer, title, isSeries, year);
      && (r.None? <==> apiKey == [] || forall i :: 0 <= i < |title| ==> title[i] in Whitespace)
      && (r.Some? ==>
            && r.value.url == SearchUrl(isSeries)
            && r.value.params["query"] == StrParam(Trim(title))
            && r.value.params["language"] == StrParam("en-US")
            && r.value.params["include_adult"] == StrParam("false"))
  {
  }

  /**
   * A year filter goes under `first_air_date_year` for a series and under
   * `year` for a movie, exactly when the year parses as an integer in
   * 1900..2030, and it carries that integer.
   */
  lemma YearFilterPlacement(apiKey: string, bearer: bool, title: string, isSeries: bool, year: Option<string>, n: int)
    requires SearchRequest(apiKey, bearer, title, isSeries, year).Some?
    ensures var params := SearchRequest(apiKey, bearer, title, isSeries, year).value.params;
      && ("first_air_date_year" in params ==> isSeries)
      && ("year" in params ==> !isSeries)
      && ((isSeries && "first_air_date_year" in params && params["first_air_date_year"] == IntParam(n))
            || (!isSeries && "year" in params && params["year"] == IntParam(n))
          <==> year.Some? && ParseInt(year.value) == Some(n) && 1900 <= n <= 2030)
  {
  }

  /** The key rides on the search request in exactly one place. */
  lemma SearchRequestCarriesKey(apiKey: string, bearer: bool, title: string, isSeries: bool, year: Option<string>)
    requires SearchRequest(apiKey, bearer, title, isSeries, year).Some?
    ensures var r := SearchRequest(apiKey, bearer, title, isSeries, year).value;
      && (bearer ==> "api_key" !in r.params && r.headers == map["Authorization" := "Bearer " + apiKey])
      && (!bearer ==> r.params["api_key"] == StrParam(apiKey) && r.headers == map[])
  {
  }

  /** A record of the response; a field the record lacks is None. */
  datatype Item = Item(
    id: Option<int>, title: Option<string>, name: Option<string>,
    releaseDate: Option<string>, firstAirDate: Option<string>,
    overview: Option<string>, posterPath: Option<string>,
    voteAverage: Option<real>, popularity: Option<real>)

  /** A search result. */
  datatype Result = Result(
    id: Option<int>, title: string, releaseDate: string, year: Option<string>,
    overview: string, posterPath: string, voteAverage: real, popularity: real)

  /** `_extract_year_from_date`: None for an empty date, else the text before the first '-'. */
  function ExtractYear(date: string): (r: Option<string>)
    ensures r.None? <==> date == []
  {
    if date == [] then None else Some(BeforeFirst(date, '-'))
  }

  lemma {:induction false} BeforeDash(p: string, s: string)
    requires '-' !in p && s != [] && s[0] == '-'
    ensures BeforeFirst(p + s, '-') == p
  {
    if p != [] {
      assert (p + s)[1..] == p[1..] + s;
      BeforeDash(p[1..], s);
    } else {
      assert p + s == s;
    }
  }

  /** The year of an ISO date `YYYY-MM-DD` is its `YYYY`. */
  lemma ExtractYearOfDate(year: string, rest: string)
    requires year != [] && '-' !in year
    ensures ExtractYear(year + "-" + rest) == Some(year)
  {
    assert year + "-" + rest == year + ("-" + rest);
    BeforeDash(year, "-" + rest);
  }

  /** One record as a result: a series takes `name` and `first_air_date`, a movie `title` and `release_date`. */
  function ToResult(item: Item, isSeries: bool): Result {
    var date := if isSeries then item.firstAirDate.GetOr("") else item.releaseDate.GetOr("");
    Result(
      item.id,
      if isSeries then item.name.GetOr("Unknown Title") else item.title.GetOr("Unknown Title"),
      date, ExtractYear(date),
      item.overview.GetOr("No overview available"), item.posterPath.GetOr(""),
      item.voteAverage.GetOr(0.0), item.popularity.GetOr(0.0))
  }

  /** The results for the records, one each, in response order. */
  function ToResults(items: seq<Item>, isSeries: bool): (r: seq<Result>)
    ensures |r| == |items|
    ensures forall k :: 0 <= k < |r| ==> r[k] == ToResult(items[k], isSeries)
  {
    if items == [] then [] else ToResults(items[..|items| - 1], isSeries) + [ToResult(items[|items| - 1], isSeries)]
  }

  /** Python's `xs[:limit]`: a negative limit counts from the end. */
  function Take<T>(xs: seq<T>, limit: int): (r: seq<T>)
    ensures |r| <= |xs| && r == xs[..|r|]
    ensures limit >= 0 ==> |r| == if limit < |xs| then limit else |xs|
    ensures limit < 0 ==> |r| == if |xs| + limit > 0 then |xs| + limit else 0
  {
    if limit >= 0 then (if limit < |xs| then xs[..limit] else xs)
    else (if |xs| + limit > 0 then xs[..|xs| + limit] else [])
  }

  /** What `search_title` returns. */
  function SearchResults(apiKey: string, title: string, isSeries: bool, limit: int, response: Option<seq<Item>>): seq<Result> {
    if apiKey == [] || IsBlank(title) || response.None? then []
    else ToResults(Take(response.value, limit), isSeries)
  }

  /**
   * The results are the first records of the response, in order, at most
   * `limit` of them; nothing comes back without a key, with a blank title
   * or when the request failed.
   */
  lemma SearchResultsShape(apiKey: string, title: string, isSeries: bool, limit: int, response: Option<seq<Item>>)
    ensures var r := SearchResults(apiKey, title, isSeries, limit, response);
      && (apiKey == [] || IsBlank(title) || response.None? ==> r == [])
      && (response.Some? ==> |r| <= |response.value|)
      && (limit >= 0 ==> |r| <= limit)
      && (response.Some? ==> forall k :: 0 <= k < |r| ==> r[k] == ToResult(response.value[k], isSeries))
      && (apiKey != [] && !IsBlank(title) && response.Some? && 0 <= |response.value| <= limit ==> |r| == |response.value|)
  {
    if apiKey != [] && !IsBlank(title) && response.Some? {
      var items := Take(response.value, limit);
      assert forall k :: 0 <= k < |items| ==> items[k] == response.value[k];
    }
  }

  // ---------------------------------------------------------------------
  // Best match
  // ---------------------------------------------------------------------

  /** How the scan for the requested year ends. */
  datatype YearScan = Found(index: nat) | NotFound | Aborted

  /** A result's year, when it is non-empty. */
  predicate HasYear(r: Result) {
    r.year.Some? && r.year.value != []
  }

  /**
   * The loop of `find_best_match` from the `i`-th result: a result with a
   * year equal to the target is found; a year that is not a number raises
   * and ends the scan.
   */
  function ScanYears(results: seq<Result>, target: int, i: nat): (r: YearScan)
    requires i <= |results|
    ensures r.Found? ==> i <= r.index < |results|
    decreases |results| - i
  {
    if i == |results| then NotFound
    else if !HasYear(results[i]) then ScanYears(results, target, i + 1)
    else
      match ParseInt(results[i].year.value)
      case None => Aborted
      case Some(n) => if n == target then Found(i) else ScanYears(results, target, i + 1)
  }

  /**
   * `find_best_match` on the results: None when there are none; with a
   * numeric year, the first result of that year if the scan reaches one;
   * otherwise the first result.
   */
  function BestMatch(results: seq<Result>, year: Option<string>): (r: Option<Result>)
    ensures r.Some? <==> results != []
    ensures r.Some? ==> r.value in results
  {
    if results == [] then None
    else if year.Some? && year.value != [] then
      match ParseInt(year.value)
      case None => Some(results[0])
      case Some(target) =>
        match ScanYears(results, target, 0)
        case Found(i) => Some(results[i])
        case NotFound => Some(results[0])
        case Aborted => Some(results[0])
    else Some(results[0])
  }

  /** A result the scan goes past: no year, or a numeric year other than the target. */
  predicate PassesOver(r: Result, target: int) {
    HasYear(r) ==> ParseInt(r.year.value).Some? && ParseInt(r.year.value).value != target
  }

  /** From `from` up to `i`, the scan goes past every result. */
  predicate PassedOver(results: seq<Result>, target: int, from: nat, i: nat)
    requires from <= i <= |results|
  {
    forall j :: from <= j < i ==> PassesOver(results[j], target)
  }

  /** The scan goes past the results it passes over. */
  lemma {:induction false} ScanPasses(results: seq<Result>, target: int, from: nat, i: nat)
    requires from <= i <= |results| && PassedOver(results, target, from, i)
    ensures ScanYears(results, target, from) == ScanYears(results, target, i)
    decreases i - from
  {
    if from < i {
      ScanPasses(results, target, from + 1, i);
    }
  }

  /** The scan stops at the first result it cannot pass over. */
  lemma {:induction false} ScanStops(results: seq<Result>, target: int, from: nat)
    requires from <= |results|
    ensures var r := ScanYears(results, target, from);
      && (r.Found? ==> HasYear(results[r.index]) && ParseInt(results[r.index].year.value) == Some(target)
                       && PassedOver(results, target, from, r.index))
      && (r.NotFound? ==> PassedOver(results, target, from, |results|))
    decreases |results| - from
  {
    if from < |results| {
      ScanStops(results, target, from + 1);
    }
  }

  /** None exactly when there are no results; otherwise always one of the results. */
  lemma BestMatchIsAResult(results: seq<Result>, year: Option<string>)
    ensures BestMatch(results, year).None? <==> results == []
    ensures BestMatch(results, year).Some? ==> BestMatch(results, year).value in results
  {
  }

  /** Without a numeric year the first result is the best. */
  lemma NoYearFirstResult(results: seq<Result>, year: Option<string>)
    requires results != []
    requires year.None? || ParseInt(year.value).None?
    ensures BestMatch(results, year) == Some(results[0])
  {
    if year.Some? && year.value == [] {
      assert ParseInt(year.value).None?;
    }
  }

  /** The first result whose year equals the requested year is the best, when the scan gets there. */
  lemma FirstYearMatchWins(results: seq<Result>, year: string, target: int, i: nat)
    requires ParseInt(year) == Some(target)
    requires i < |results| && HasYear(results[i]) && ParseInt(results[i].year.value) == Some(target)
    requires PassedOver(results, target, 0, i)
    ensures BestMatch(results, Some(year)) == Some(results[i])
  {
    NoDigitNoNumber([]);
    ScanPasses(results, target, 0, i);
  }

  /** A year that is not a number, met before any match, ends the scan on the first result. */
  lemma NonNumericYearAborts(results: seq<Result>, year: string, target: int, i: nat)
    requires ParseInt(year) == Some(target)
    requires i < |results| && HasYear(results[i]) && ParseInt(results[i].year.value).None?
    requires PassedOver(results, target, 0, i)
    ensures BestMatch(results, Some(year)) == Some(results[0])
  {
    NoDigitNoNumber([]);
    ScanPasses(results, target, 0, i);
  }

  /** When a result is chosen for its year, it is the first of that year, and every result before it has a numeric year. */
  lemma ChosenForYear(results: seq<Result>, year: string, target: int)
    requires ParseInt(year) == Some(target) && ScanYears(results, target, 0).Found?
    ensures var i := ScanYears(results, target, 0).index;
      && BestMatch(results, Some(year)) == Some(results[i])
      && HasYear(results[i]) && ParseInt(results[i].year.value) == Some(target)
      && PassedOver(results, target, 0, i)
  {
    NoDigitNoNumber([]);
    ScanStops(results, target, 0);
  }

  // ---------------------------------------------------------------------
  // The helper object
  // ---------------------------------------------------------------------

  /** `TMDBHelper`: the key and whether it is a bearer token, fixed at construction. */
  class TmdbHelper {
    const apiKey: string
    const isBearerToken: bool

    constructor(apiKey: string)
      ensures this.apiKey == apiKey && isBearerToken == IsBearerToken(apiKey)
    {
      this.apiKey := apiKey;
      this.isBearerToken := IsBearerToken(apiKey);
    }

    /** `_prepare_request`: attaches the key to the caller's parameters or to fresh headers. */
    method PrepareRequest(params: Params) returns (headers: map<string, string>)
      modifies params
      ensures params.items == WithKey(old(params.items), apiKey, isBearerToken)
      ensures headers == KeyHeaders(apiKey, isBearerToken)
    {
      headers := map[];
      if isBearerToken {
        headers := headers["Authorization" := "Bearer " + apiKey];
      } else {
        params.items := params.items["api_key" := StrParam(apiKey)];
      }
    }

    /**
     * `search_title`: the request it sends, if any, and the results, built
     * one record at a time.
     */
    method SearchTitle(title: string, isSeries: bool, year: Option<string>, limit: int, response: Option<seq<Item>>)
      returns (results: seq<Result>, sent: Option<Request>)
      ensures sent == SearchRequest(apiKey, isBearerToken, title, isSeries, year)
      ensures results == SearchResults(apiKey, title, isSeries, limit, response)
    {
      if apiKey == [] {
        return [], None;
      }
      StripBlank(title);
      if title == [] || Trim(title) == [] {
        return [], None;
      }
      var params := new Params(map["query" := StrParam(Trim(title)), "language" := StrParam("en-US"), "include_adult" := StrParam("false")]);
      if year.Some? && year.value != [] {
        var yearInt := ParseInt(year.value);
        if yearInt.Some? && 1900 <= yearInt.value <= 2030 {
          if isSeries {
            params.items := params.items["first_air_date_year" := IntParam(yearInt.value)];
          } else {
            params.items := params.items["year" := IntParam(yearInt.value)];
          }
        }
      }
      var url := if isSeries then BaseUrl + "/search/tv" else BaseUrl + "/search/movie";
      var headers := PrepareRequest(params);
      sent := Some(Request(url, params.items, headers));
      if response.None? {
        return [], sent;
      }
      results := ProcessResults(Take(response.value, limit), isSeries);
    }

    /** The loop of `search_title` that turns the records into results. */
    method ProcessResults(items: seq<Item>, isSeries: bool) returns (results: seq<Result>)
      ensures results == ToResults(items, isSeries)
    {
      results := [];
      for i := 0 to |items|
        invariant results == ToResults(items[..i], isSeries)
      {
        assert items[..i + 1][..i] == items[..i];
        results := results + [ToResult(items[i], isSeries)];
      }
      assert items[..|items|] == items;
    }

    /**
     * The year loop of `find_best_match`: it stops at the first result whose
     * year is the target, and at the first year that is not a number.
     */
    static method ScanForYear(results: seq<Result>, target: int) returns (r: YearScan)
      ensures r == ScanYears(results, target, 0)
    {
      var i := 0;
      while i < |results|
        invariant 0 <= i <= |results|
        invariant ScanYears(results, target, i) == ScanYears(results, target, 0)
        decreases |results| - i
      {
        var movie := results[i];
        if movie.year.Some? && movie.year.value != [] {
          var movieYear := ParseInt(movie.year.value);
          if movieYear.None? {
            return Aborted;
          }
          if movieYear.value == target {
            return Found(i);
          }
        }
        i := i + 1;
      }
      return NotFound;
    }

    /** `find_best_match`: searches with a limit of 10, then scans for the year. */
    method FindBestMatch(title: string, isSeries: bool, year: Option<string>, response: Option<seq<Item>>)
      returns (best: Option<Result>, sent: Option<Request>)
      ensures sent == SearchRequest(apiKey, isBearerToken, title, isSeries, year)
      ensures best == BestMatch(SearchResults(apiKey, title, isSeries, 10, response), year)
    {
      var results;
      results, sent := SearchTitle(title, isSeries, year, 10, response);
      if results == [] {
        return None, sent;
      }
      if year.Some? && year.value != [] {
        var targetYear := ParseInt(year.value);
        if targetYear.Some? {
          var scan := ScanForYear(results, targetYear.value);
          if scan.Found? {
            return Some(results[scan.index]), sent;
          }
        }
      }
      best := Some(results[0]);
    }
  }

  // ---------------------------------------------------------------------
  // get_tmdb_id_for_file
  // ---------------------------------------------------------------------

  /** The id found, the result it came from, and the search request sent on the way. */
  datatype Lookup = Lookup(id: Option<int>, movie: Option<Result>, sent: Option<Request>)

  /**
   * `get_tmdb_id_for_file` given the title and year extracted from the file
   * name and whether the key test succeeded. The year is handed to
   * `find_best_match` in the `is_series` position, so a non-empty year asks
   * for a series and no year filter is used.
   */
  function TmdbIdForFile(apiKey: string, title: string, year: Option<string>, keyAccepted: bool, response: Option<seq<Item>>): Lookup {
    if apiKey == [] || IsBlank(apiKey) then Lookup(None, None, None)
    else if title == [] || title == "Unknown Movie" then Lookup(None, None, None)
    else if !keyAccepted then Lookup(None, None, None)
    else
      var isSeries := year.Some? && year.value != [];
      var sent := SearchRequest(apiKey, IsBearerToken(apiKey), title, isSeries, None);
      match BestMatch(SearchResults(apiKey, title, isSeries, 10, response), None)
      case None => Lookup(None, None, sent)
      case Some(movie) => Lookup(movie.id, Some(movie), sent)
  }

  /** A file whose name yields a year is looked up as a TV series, without a year filter. */
  lemma YearMeansSeries(apiKey: string, title: string, year: string, keyAccepted: bool, response: Option<seq<Item>>)
    requires year != []
    ensures var r := TmdbIdForFile(apiKey, title, Some(year), keyAccepted, response);
      r.sent.Some? ==>
        && r.sent.value.url == BaseUrl + "/search/tv"
        && "first_air_date_year" !in r.sent.value.params
        && "year" !in r.sent.value.params
  {
    SentForFile(apiKey, title, Some(year), keyAccepted, response);
    var r := TmdbIdForFile(apiKey, title, Some(year), keyAccepted, response);
    if r.sent.Some? {
      NoYearNoFilter(apiKey, IsBearerToken(apiKey), title, true);
    }
  }

  /** The request sent for a file is the search with `is_series` set from the year and no year. */
  lemma SentForFile(apiKey: string, title: string, year: Option<string>, keyAccepted: bool, response: Option<seq<Item>>)
    ensures var r := TmdbIdForFile(apiKey, title, year, keyAccepted, response);
      r.sent.Some? ==> r.sent == SearchRequest(apiKey, IsBearerToken(apiKey), title, year.Some? && year.value != [], None)
  {
  }

  /** Without a year there is no year filter. */
  lemma NoYearNoFilter(apiKey: string, bearer: bool, title: string, isSeries: bool)
    requires SearchRequest(apiKey, bearer, title, isSeries, None).Some?
    ensures var params := SearchRequest(apiKey, bearer, title, isSeries, None).value.params;
      "first_air_date_year" !in params && "year" !in params
  {
  }

  /** The result found for a file is always the first record of the response, taken as a series when the name yields a year. */
  lemma FileTakesFirstResult(apiKey: string, title: string, year: Option<string>, keyAccepted: bool, response: Option<seq<Item>>)
    ensures var r := TmdbIdForFile(apiKey, title, year, keyAccepted, response);
      r.movie.Some? ==>
        && response.Some? && response.value != []
        && r.movie.value == ToResult(response.value[0], year.Some? && year.value != [])
        && r.id == response.value[0].id
  {
    var isSeries := year.Some? && year.value != [];
    SearchResultsShape(apiKey, title, isSeries, 10, response);
  }

  /** A file whose name yields no year is looked up as a movie, without a year filter. */
  lemma NoYearMeansMovie(apiKey: string, title: string, keyAccepted: bool, response: Option<seq<Item>>)
    ensures var r := TmdbIdForFile(apiKey, title, None, keyAccepted, response);
      r.sent.Some? ==> r.sent.value.url == BaseUrl + "/search/movie" && "year" !in r.sent.value.params
  {
  }

  /** `get_tmdb_id_for_file`, with the key test's answer and the search response as inputs. */
  method GetTmdbIdForFile(tmdbApiKey: string, title: string, year: Option<string>, keyAccepted: bool, response: Option<seq<Item>>)
    returns (r: Lookup)
    ensures r == TmdbIdForFile(tmdbApiKey, title, year, keyAccepted, response)
  {
    StripBlank(tmdbApiKey);
    if tmdbApiKey == [] || Trim(tmdbApiKey) == [] {
      return Lookup(None, None, None);
    }
    if title == [] || title == "Unknown Movie" {
      return Lookup(None, None, None);
    }
    var tmdb := new TmdbHelper(tmdbApiKey);
    if !keyAccepted {
      return Lookup(None, None, None);
    }
    var isSeries := year.Some? && year.value != [];
    var movie, sent := tmdb.FindBestMatch(title, isSeries, None, response);
    if movie.Some? {
      return Lookup(movie.value.id, movie, sent);
    }
    return Lookup(None, None, sent);
  }
}
