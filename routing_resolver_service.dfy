/**
 * The resolver (`RoutingResolverService`): an exact lookup of the normalised url
 * in the exact-match index, then the longest segment prefix of the raw url in
 * the trie, then the no-route error. It only reads the registry's tables.
 */
module Resolver {
  import opened Results
  import opened Text
  import opened RoutingRules
  import opened Normalization
  import opened Registry

  /** `_find_rule_by_url`: the exact-match entry under a normalised url, if any. */
  function FindRuleByUrl(t: Tables, url: string): (r: Option<RouteRule>)
    ensures r.Some? <==> url in t.urls
    ensures r.Some? ==> r.value == t.urls[url]
  {
    if url in t.urls then Some(t.urls[url]) else None
  }

  /** The longest trie key that is a prefix of `key[..n]`, trying the longest candidate first. */
  function LongestPrefixUpTo(trie: map<seq<string>, RouteRule>, key: seq<string>, n: nat): (r: Option<seq<string>>)
    requires n <= |key|
    ensures r.Some? ==> r.value in trie && r.value <= key && |r.value| <= n
    ensures r.Some? ==> forall k :: k in trie && k <= key && |k| <= n ==> |k| <= |r.value|
    ensures r.None? ==> forall k :: k in trie && k <= key ==> |k| > n
    decreases n
  {
    if key[..n] in trie then
      Some(key[..n])
    else if n == 0 then
      assert forall k :: k <= key && |k| == 0 ==> k == key[..0];
      None
    else
      // a stored prefix of length n would be key[..n] itself
      assert forall k :: k <= key && |k| == n ==> k == key[..n];
      LongestPrefixUpTo(trie, key, n - 1)
  }

  /**
   * The trie's `longest_prefix`: the longest stored key that is a prefix of the
   * query key, compared segment by segment; none when no stored key is a prefix.
   */
  function LongestPrefix(trie: map<seq<string>, RouteRule>, key: seq<string>): (r: Option<seq<string>>)
    ensures r.Some? ==> r.value in trie && r.value <= key
    ensures r.Some? ==> forall k :: k in trie && k <= key ==> |k| <= |r.value|
    ensures r.None? <==> forall k :: k in trie ==> !(k <= key)
  {
    LongestPrefixUpTo(trie, key, |key|)
  }

  /** The longest matching prefix is unique: no other stored prefix of the key is as long. */
  lemma LongestPrefixUnique(trie: map<seq<string>, RouteRule>, key: seq<string>, k: seq<string>)
    requires LongestPrefix(trie, key).Some?
    requires k in trie && k <= key && |k| >= |LongestPrefix(trie, key).value|
    ensures k == LongestPrefix(trie, key).value
  {
  }

  /** `_find_rule_by_prefix`: the rule of the longest trie key that is a segment prefix of the raw url. */
  function FindRuleByPrefix(t: Tables, url: string): (r: Option<RouteRule>)
    ensures r.Some? ==>
      exists k :: k in t.urlTrie && k <= Segments(url) && r.value == t.urlTrie[k]
                  && forall k' :: k' in t.urlTrie && k' <= Segments(url) ==> |k'| <= |k|
    ensures r.None? <==> forall k :: k in t.urlTrie ==> !(k <= Segments(url))
  {
    match LongestPrefix(t.urlTrie, Segments(url))
    case None => None
    case Some(k) => Some(t.urlTrie[k])
  }

  /**
   * `resolve`: the target of the exact-match entry for the normalised url if
   * there is one; otherwise the target of the longest trie key that is a segment
   * prefix of the raw url; otherwise the no-route error carrying the url. A url
   * the parser rejects raises the validation error before any lookup.
   */
  function ResolveIn(t: Tables, parse: Parser, url: string): (r: Result<Uuid, RoutingError>)
    ensures parse(url).None? ==> r == Err(ValidationError(url))
    // exact match wins over any prefix match
    ensures NormalizeUrl(parse, url).Ok? && NormalizeUrl(parse, url).value in t.urls ==>
      r == Ok(t.urls[NormalizeUrl(parse, url).value].target)
    // otherwise the longest segment prefix of the raw url wins
    ensures r.Ok? && NormalizeUrl(parse, url).Ok? && NormalizeUrl(parse, url).value !in t.urls ==>
      exists k :: k in t.urlTrie && k <= Segments(url) && r.value == t.urlTrie[k].target
                  && forall k' :: k' in t.urlTrie && k' <= Segments(url) ==> |k'| <= |k|
    // the only errors are the validation error for a rejected url and the no-route error
    ensures r.Err? ==> (r == Err(ValidationError(url)) && parse(url).None?) || r == Err(NoRouteFound(url))
    // no route exactly when the url is valid and neither lookup hits
    ensures r == Err(NoRouteFound(url)) <==>
      && NormalizeUrl(parse, url).Ok?
      && NormalizeUrl(parse, url).value !in t.urls
      && forall k :: k in t.urlTrie ==> !(k <= Segments(url))
  {
    match NormalizeUrl(parse, url)
    case Err(e) => Err(e)
    case Ok(normalized) =>
      match FindRuleByUrl(t, normalized)
      case Some(rule) => Ok(rule.target)
      case None =>
        match FindRuleByPrefix(t, url)
        case Some(rule) => Ok(rule.target)
        case None => Err(NoRouteFound(url))
  }

  /**
   * When the exact-match index misses, a trie key that is a segment prefix of the
   * url and strictly longer than every other such key decides the target.
   */
  lemma LongestPrefixDecides(t: Tables, parse: Parser, url: string, k: seq<string>)
    requires NormalizeUrl(parse, url).Ok? && NormalizeUrl(parse, url).value !in t.urls
    requires k in t.urlTrie && k <= Segments(url)
    requires forall k' :: k' in t.urlTrie && k' <= Segments(url) && k' != k ==> |k'| < |k|
    ensures ResolveIn(t, parse, url) == Ok(t.urlTrie[k].target)
  {
    var found := LongestPrefix(t.urlTrie, Segments(url)).value;
    assert found == k;
  }

  /** Whatever `exactMatch` is, a created rule answers its own url until a later rule shares its normalised url. */
  lemma CreatedRuleResolvesItself(t: Tables, parse: Parser, req: CreateRouteRule, newId: Uuid)
    requires newId !in t.routeRules
    requires parse(req.url).Some?
    ensures ResolveIn(AfterCreate(t, parse, req, newId).value, parse, req.url) == Ok(req.target)
  {
  }

  /** In consistent tables every resolved target is the target of some stored rule. */
  lemma ResolvedTargetIsStored(t: Tables, parse: Parser, url: string)
    requires Consistent(t, parse)
    requires ResolveIn(t, parse, url).Ok?
    ensures exists id :: id in t.routeRules && t.routeRules[id].target == ResolveIn(t, parse, url).value
  {
    var n := NormalizeUrl(parse, url).value;
    if n in t.urls {
      assert Indexes(t, parse, t.urls[n]);
    } else {
      var k := LongestPrefix(t.urlTrie, Segments(url)).value;
      assert Indexes(t, parse, t.urlTrie[k]);
    }
  }

  /** The resolver object: it holds the routing service and only reads its tables. */
  class RoutingResolverService {
    const routingService: RoutingService

    /** The resolver reads the tables of the service it is given. */
    constructor (routingService: RoutingService)
      ensures this.routingService == routingService
    {
      this.routingService := routingService;
    }

    /** `resolve` on the service's current tables; it has no `modifies` clause, so the registry is unchanged. */
    method Resolve(url: string) returns (r: Result<Uuid, RoutingError>)
      ensures r == ResolveIn(routingService.State(), routingService.parse, url)
    {
      var normalized := NormalizeUrl(routingService.parse, url);
      if normalized.Err? {
        return Err(normalized.error);
      }
      var byUrl := FindRuleByUrl(routingService.State(), normalized.value);
      if byUrl.Some? {
        return Ok(byUrl.value.target);
      }
      var byPrefix := FindRuleByPrefix(routingService.State(), url);
      if byPrefix.Some? {
        return Ok(byPrefix.value.target);
      }
      return Err(NoRouteFound(url));
    }
  }
}
