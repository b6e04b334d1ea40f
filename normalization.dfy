/**
 * URL validation and canonicalisation of the routing service (`validate_url`,
 * `parse_url_params`, `normalize_url`). The URL parser the service delegates to
 * is a parameter: it either rejects a string or yields its generic components
 * (scheme, host, path, query, as in section 3 of RFC 3986).
 */
module Normalization {
  import opened Results
  import opened Text
  import opened RoutingRules

  /** The components of an accepted url; an absent path or query is the empty string. */
  datatype UrlParts = UrlParts(scheme: string, host: string, path: string, query: string)

  /** The URL parser and validator: `Some(parts)` for a url it accepts, `None` for one it rejects. */
  type Parser = string -> Option<UrlParts>

  /** What `parse_url_params` returns: the base url and, when there is a query, its sorted unique tokens. */
  datatype ParsedUrl = ParsedUrl(baseUrl: string, queryParams: Option<seq<string>>)

  /** The path as it appears in a canonical url: `/` when the url has none. */
  function PathOrRoot(path: string): (r: string)
    ensures r != []
    ensures path != [] ==> r == path
    ensures path == [] ==> r == "/"
  {
    if path == "" then "/" else path
  }

  /** `scheme://host` followed by the path, or by `/` when the path is empty. */
  function BaseUrl(p: UrlParts): (r: string)
    ensures p.scheme + "://" + p.host <= r
    ensures r[|p.scheme| + 3 + |p.host|..] == PathOrRoot(p.path)
  {
    p.scheme + "://" + p.host + PathOrRoot(p.path)
  }

  /** The canonical query text: the distinct `&`-separated tokens, sorted and rejoined with `&`. */
  function QueryText(query: string): string
  {
    Join(SortedUnique(Split(query, '&')), '&')
  }

  /** The tokens a query holds; none when there is no query. */
  function QueryTokens(query: string): set<string>
  {
    if query == "" then {} else Elements(Split(query, '&'))
  }

  /** Runs the parser; a rejected url raises the validation error. */
  function ValidateUrl(parse: Parser, url: string): (r: Result<UrlParts, RoutingError>)
    ensures r.Ok? <==> parse(url).Some?
    ensures r.Ok? ==> r.value == parse(url).value
    ensures r.Err? ==> r.error == ValidationError(url)
  {
    match parse(url)
    case None => Err(ValidationError(url))
    case Some(p) => Ok(p)
  }

  /** `parse_url_params`: the base url and, when the url has a query, its sorted unique tokens. */
  function ParseUrlParams(parse: Parser, url: string): (r: Result<ParsedUrl, RoutingError>)
    ensures r.Ok? <==> parse(url).Some?
    ensures r.Err? ==> r.error == ValidationError(url)
  {
    match ValidateUrl(parse, url)
    case Err(e) => Err(e)
    case Ok(p) =>
      var baseUrl := BaseUrl(p);
      var sortedQueryParams := if p.query != "" then Some(SortedUnique(Split(p.query, '&'))) else None;
      Ok(ParsedUrl(baseUrl, sortedQueryParams))
  }

  /**
   * The base url starts with `scheme://host` and goes on with the path, or `/`
   * when the path is empty; the query tokens are present exactly when the url has
   * a query, and are then strictly increasing, hold every token and no other.
   */
  lemma ParseUrlParamsShape(parse: Parser, url: string)
    requires parse(url).Some?
    ensures
      var p, parsed := parse(url).value, ParseUrlParams(parse, url).value;
      && p.scheme + "://" + p.host <= parsed.baseUrl
      && parsed.baseUrl[|p.scheme| + 3 + |p.host|..] == PathOrRoot(p.path)
      && (parsed.queryParams.None? <==> p.query == "")
      && (parsed.queryParams.Some? ==>
            && StrictlyIncreasing(parsed.queryParams.value)
            && Elements(parsed.queryParams.value) == QueryTokens(p.query)
            && |parsed.queryParams.value| >= 1)
  {
  }

  /** The canonical form of a url; a url the parser rejects raises the validation error. */
  function NormalizeUrl(parse: Parser, url: string): (r: Result<string, RoutingError>)
    ensures r.Ok? <==> parse(url).Some?
    ensures r.Err? ==> r.error == ValidationError(url)
  {
    match ParseUrlParams(parse, url)
    case Err(e) => Err(e)
    case Ok(parsed) =>
      var url := parsed.baseUrl;
      if parsed.queryParams.Some? && |parsed.queryParams.value| > 0 then
        Ok(url + "?" + Join(parsed.queryParams.value, '&'))
      else
        Ok(url)
  }

  /**
   * The canonical url is `scheme://host`, then the path or `/`, then, only when
   * the url has a query, `?` and its distinct tokens in increasing order.
   */
  lemma NormalizeUrlShape(parse: Parser, url: string)
    requires parse(url).Some?
    ensures parse(url).value.query == "" ==> NormalizeUrl(parse, url).value == BaseUrl(parse(url).value)
    ensures parse(url).value.query != "" ==>
      NormalizeUrl(parse, url).value == BaseUrl(parse(url).value) + "?" + QueryText(parse(url).value.query)
  {
  }

  /**
   * Two urls with the same base url normalise to the same string exactly when
   * their queries hold the same tokens: reordering or repeating tokens makes
   * no difference, adding or dropping one does.
   */
  lemma NormalizeEqualIffSameTokens(parse: Parser, u1: string, u2: string)
    requires parse(u1).Some? && parse(u2).Some?
    requires BaseUrl(parse(u1).value) == BaseUrl(parse(u2).value)
    ensures NormalizeUrl(parse, u1) == NormalizeUrl(parse, u2)
        <==> QueryTokens(parse(u1).value.query) == QueryTokens(parse(u2).value.query)
  {
    var p1, p2 := parse(u1).value, parse(u2).value;
    var base := BaseUrl(p1);
    var q1, q2 := p1.query, p2.query;
    NormalizeUrlShape(parse, u1);
    NormalizeUrlShape(parse, u2);
    ElementsOfEmpty(Split(q1, '&'));
    ElementsOfEmpty(Split(q2, '&'));
    if q1 != "" && q2 != "" {
      var s1, s2 := SortedUnique(Split(q1, '&')), SortedUnique(Split(q2, '&'));
      if QueryTokens(q1) == QueryTokens(q2) {
        SortedUniqueOfSameElements(Split(q1, '&'), Split(q2, '&'));
      }
      if NormalizeUrl(parse, u1) == NormalizeUrl(parse, u2) {
        var n1 := base + "?" + Join(s1, '&');
        var n2 := base + "?" + Join(s2, '&');
        assert n1[|base| + 1..] == Join(s1, '&');
        assert n2[|base| + 1..] == Join(s2, '&');
        QueryTokensAreSeparatorFree(q1);
        QueryTokensAreSeparatorFree(q2);
        SplitJoin(s1, '&');
        SplitJoin(s2, '&');
      }
    } else if q1 != "" {
      assert |NormalizeUrl(parse, u1).value| > |NormalizeUrl(parse, u2).value|;
    } else if q2 != "" {
      assert |NormalizeUrl(parse, u2).value| > |NormalizeUrl(parse, u1).value|;
    }
  }

  /** The sorted unique tokens of a query contain no `&`. */
  lemma QueryTokensAreSeparatorFree(query: string)
    ensures forall i :: 0 <= i < |SortedUnique(Split(query, '&'))| ==> '&' !in SortedUnique(Split(query, '&'))[i]
  {
    var ts := Split(query, '&');
    var s := SortedUnique(ts);
    forall i | 0 <= i < |s| ensures '&' !in s[i] {
      assert s[i] in Elements(s);
      assert s[i] in Elements(ts);
    }
  }

  /**
   * Normalisation is idempotent, provided the parser reads a canonical url back
   * into the components it was built from and the query holds at least one
   * non-empty token.
   */
  lemma NormalizeIdempotent(parse: Parser, u: string)
    requires parse(u).Some?
    requires parse(u).value.query == "" || QueryText(parse(u).value.query) != ""
    requires
      var p := parse(u).value;
      parse(NormalizeUrl(parse, u).value)
        == Some(UrlParts(p.scheme, p.host, PathOrRoot(p.path), if p.query == "" then "" else QueryText(p.query)))
    ensures NormalizeUrl(parse, NormalizeUrl(parse, u).value) == NormalizeUrl(parse, u)
  {
    var p := parse(u).value;
    NormalizeUrlShape(parse, u);
    NormalizeUrlShape(parse, NormalizeUrl(parse, u).value);
    if p.query != "" {
      var ts := SortedUnique(Split(p.query, '&'));
      QueryTokensAreSeparatorFree(p.query);
      SplitJoin(ts, '&');
      SortedUniqueOfIncreasing(ts);
    }
  }

  /** A non-empty query made only of `&` has no non-empty token, so its canonical query text is empty. */
  lemma SeparatorOnlyQueryText(query: string)
    requires query != [] && forall i :: 0 <= i < |query| ==> query[i] == '&'
    ensures QueryText(query) == []
  {
    var ts := Split(query, '&');
    SplitAllSeparators(query, '&');
    assert ts[0] == [];
    assert Elements(ts) == {[]};
    assert Elements([[]]) == {[]};
    StrictlyIncreasingUnique(SortedUnique(ts), [[]]);
  }

  /**
   * A query made only of `&` has no non-empty token: its canonical url ends in a
   * bare `?`, which a parser that reads that url's query as empty normalises
   * away, so normalisation is not idempotent there.
   */
  lemma NormalizeSeparatorOnlyQuery(parse: Parser, u: string)
    requires parse(u).Some?
    requires var q := parse(u).value.query; q != [] && forall i :: 0 <= i < |q| ==> q[i] == '&'
    requires
      var p := parse(u).value;
      parse(NormalizeUrl(parse, u).value) == Some(UrlParts(p.scheme, p.host, PathOrRoot(p.path), ""))
    ensures NormalizeUrl(parse, u) == Ok(BaseUrl(parse(u).value) + "?")
    ensures NormalizeUrl(parse, NormalizeUrl(parse, u).value) == Ok(BaseUrl(parse(u).value))
  {
    NormalizeUrlShape(parse, u);
    NormalizeUrlShape(parse, NormalizeUrl(parse, u).value);
    var p := parse(u).value;
    SeparatorOnlyQueryText(p.query);
    assert BaseUrl(p) + "?" + QueryText(p.query) == BaseUrl(p) + "?";
  }
}
