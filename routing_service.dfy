/**
 * The rule registry (`RoutingService`): rules by id, the exact-match index keyed
 * by normalised url, and the prefix trie keyed by the `/`-separated segments of
 * the original url. The trie is a map from segment sequences to rules.
 */
module Registry {
  import opened Results
  import opened Text
  import opened RoutingRules
  import opened Normalization

  /** The trie key of a url: the pieces between its `/`s, none of them holding a `/`. */
  function Segments(url: string): (r: seq<string>)
    ensures |r| >= 1
    ensures forall i :: 0 <= i < |r| ==> '/' !in r[i]
  {
    Split(url, '/')
  }

  /** The registry's three tables, as values. */
  datatype Tables = Tables(
    routeRules: map<Uuid, RouteRule>,
    urls: map<string, RouteRule>,
    urlTrie: map<seq<string>, RouteRule>)

  const EmptyTables := Tables(map[], map[], map[])

  /** `get`: the rule stored under an id, or the error for an unknown id. */
  function Lookup(t: Tables, id: Uuid): (r: Result<RouteRule, RoutingError>)
    ensures r.Ok? <==> id in t.routeRules
    ensures r.Ok? ==> r.value == t.routeRules[id]
    ensures r.Err? ==> r.error == NoRouteRuleFound(id)
  {
    if id in t.routeRules then Ok(t.routeRules[id]) else Err(NoRouteRuleFound(id))
  }

  /**
   * `create` with a fresh id: validates first, then stores the rule under its id
   * with the original url, overwrites the exact-match entry under the normalised
   * url, and, for a prefix rule, the trie entry under the original url's segments.
   */
  function AfterCreate(t: Tables, parse: Parser, req: CreateRouteRule, newId: Uuid): (r: Result<Tables, RoutingError>)
    requires newId !in t.routeRules
    ensures r.Err? <==> parse(req.url).None?
    ensures r.Err? ==> r.error == ValidationError(req.url)
  {
    match ValidateUrl(parse, req.url)
    case Err(e) => Err(e)
    case Ok(_) =>
      var routeRules := t.routeRules[newId := RouteRule(req.url, req.target, req.exactMatch, newId)];
      var normalized := NormalizeUrl(parse, req.url).value;
      var current := RouteRule(normalized, req.target, req.exactMatch, newId);
      var urls := t.urls[normalized := current];
      var urlTrie := if !req.exactMatch then t.urlTrie[Segments(req.url) := current] else t.urlTrie;
      Ok(Tables(routeRules, urls, urlTrie))
  }

  /**
   * What a successful `create` does to the tables: the new rule round-trips
   * through `get` and no other id changes; the exact-match index answers the
   * normalised url with the new rule, whatever its flag; the trie changes only for
   * a prefix rule, and then only under the original url's segments.
   */
  lemma AfterCreateSpec(t: Tables, parse: Parser, req: CreateRouteRule, newId: Uuid)
    requires newId !in t.routeRules
    requires parse(req.url).Some?
    ensures
      var r, n := AfterCreate(t, parse, req, newId).value, NormalizeUrl(parse, req.url).value;
      // the new rule round-trips through get; every other id keeps its rule
      && Lookup(r, newId) == Ok(RouteRule(req.url, req.target, req.exactMatch, newId))
      && r.routeRules.Keys == t.routeRules.Keys + {newId}
      && (forall id :: id in t.routeRules ==> Lookup(r, id) == Lookup(t, id))
      // the exact-match index answers the normalised url with the new rule, whatever exactMatch is
      && r.urls.Keys == t.urls.Keys + {n}
      && r.urls[n] == RouteRule(n, req.target, req.exactMatch, newId)
      && (forall k :: k in t.urls && k != n ==> r.urls[k] == t.urls[k])
      // the trie changes only for a prefix rule, and then only under the original url
      && (req.exactMatch ==> r.urlTrie == t.urlTrie)
      && (!req.exactMatch ==>
            && r.urlTrie.Keys == t.urlTrie.Keys + {Segments(req.url)}
            && r.urlTrie[Segments(req.url)] == r.urls[n]
            && forall k :: k in t.urlTrie && k != Segments(req.url) ==> r.urlTrie[k] == t.urlTrie[k])
  {
  }

  /** An index entry that stands for the stored rule with its id: same target and flag, normalised url. */
  ghost predicate Indexes(t: Tables, parse: Parser, rule: RouteRule)
  {
    && rule.routingRuleId in t.routeRules
    && var stored := t.routeRules[rule.routingRuleId];
    && stored.target == rule.target
    && stored.exactMatch == rule.exactMatch
    && NormalizeUrl(parse, stored.url) == Ok(rule.url)
  }

  /**
   * What the tables keep true between calls: every rule is stored under its own
   * id and has a valid url; every rule's normalised url is a key of the exact-match
   * index and every prefix rule's segments a key of the trie; every index entry
   * stands for a stored rule, filed under that rule's normalised url or segments.
   */
  ghost predicate Consistent(t: Tables, parse: Parser)
  {
    && (forall id :: id in t.routeRules ==>
          && t.routeRules[id].routingRuleId == id
          && NormalizeUrl(parse, t.routeRules[id].url).Ok?
          && NormalizeUrl(parse, t.routeRules[id].url).value in t.urls
          && (!t.routeRules[id].exactMatch ==> Segments(t.routeRules[id].url) in t.urlTrie))
    && (forall n :: n in t.urls ==> t.urls[n].url == n && Indexes(t, parse, t.urls[n]))
    && (forall k :: k in t.urlTrie ==>
          && !t.urlTrie[k].exactMatch
          && Indexes(t, parse, t.urlTrie[k])
          && Segments(t.routeRules[t.urlTrie[k].routingRuleId].url) == k)
  }

  lemma EmptyConsistent(parse: Parser)
    ensures Consistent(EmptyTables, parse)
  {
  }

  /** A successful `create` keeps the tables consistent. */
  lemma CreatePreservesConsistent(t: Tables, parse: Parser, req: CreateRouteRule, newId: Uuid)
    requires Consistent(t, parse)
    requires newId !in t.routeRules
    requires AfterCreate(t, parse, req, newId).Ok?
    ensures Consistent(AfterCreate(t, parse, req, newId).value, parse)
  {
    var t' := AfterCreate(t, parse, req, newId).value;
    StoredRulesStayIndexed(t, t', parse, req, newId);
    IndexEntriesStayValid(t, t', parse, req, newId);
  }

  lemma StoredRulesStayIndexed(t: Tables, t': Tables, parse: Parser, req: CreateRouteRule, newId: Uuid)
    requires Consistent(t, parse)
    requires newId !in t.routeRules
    requires AfterCreate(t, parse, req, newId).Ok? && t' == AfterCreate(t, parse, req, newId).value
    ensures forall id :: id in t'.routeRules ==>
          && t'.routeRules[id].routingRuleId == id
          && NormalizeUrl(parse, t'.routeRules[id].url).Ok?
          && NormalizeUrl(parse, t'.routeRules[id].url).value in t'.urls
          && (!t'.routeRules[id].exactMatch ==> Segments(t'.routeRules[id].url) in t'.urlTrie)
  {
    forall id | id in t'.routeRules
      ensures t'.routeRules[id].routingRuleId == id
      ensures NormalizeUrl(parse, t'.routeRules[id].url).Ok?
      ensures NormalizeUrl(parse, t'.routeRules[id].url).value in t'.urls
      ensures !t'.routeRules[id].exactMatch ==> Segments(t'.routeRules[id].url) in t'.urlTrie
    {
      if id != newId {
        assert t'.routeRules[id] == t.routeRules[id];
      }
    }
  }

  lemma IndexEntriesStayValid(t: Tables, t': Tables, parse: Parser, req: CreateRouteRule, newId: Uuid)
    requires Consistent(t, parse)
    requires newId !in t.routeRules
    requires AfterCreate(t, parse, req, newId).Ok? && t' == AfterCreate(t, parse, req, newId).value
    ensures forall n :: n in t'.urls ==> t'.urls[n].url == n && Indexes(t', parse, t'.urls[n])
    ensures forall k :: k in t'.urlTrie ==>
          && !t'.urlTrie[k].exactMatch
          && Indexes(t', parse, t'.urlTrie[k])
          && Segments(t'.routeRules[t'.urlTrie[k].routingRuleId].url) == k
  {
    UrlEntriesStayValid(t, t', parse, req, newId);
    TrieEntriesStayValid(t, t', parse, req, newId);
  }

  lemma UrlEntriesStayValid(t: Tables, t': Tables, parse: Parser, req: CreateRouteRule, newId: Uuid)
    requires Consistent(t, parse)
    requires newId !in t.routeRules
    requires AfterCreate(t, parse, req, newId).Ok? && t' == AfterCreate(t, parse, req, newId).value
    ensures forall n :: n in t'.urls ==> t'.urls[n].url == n && Indexes(t', parse, t'.urls[n])
  {
    var n := NormalizeUrl(parse, req.url).value;
    forall k | k in t'.urls ensures t'.urls[k].url == k && Indexes(t', parse, t'.urls[k]) {
      if k != n {
        assert t'.urls[k] == t.urls[k];
        assert Indexes(t, parse, t.urls[k]);
      }
    }
  }

  lemma TrieEntriesStayValid(t: Tables, t': Tables, parse: Parser, req: CreateRouteRule, newId: Uuid)
    requires Consistent(t, parse)
    requires newId !in t.routeRules
    requires AfterCreate(t, parse, req, newId).Ok? && t' == AfterCreate(t, parse, req, newId).value
    ensures forall k :: k in t'.urlTrie ==>
          && !t'.urlTrie[k].exactMatch
          && Indexes(t', parse, t'.urlTrie[k])
          && Segments(t'.routeRules[t'.urlTrie[k].routingRuleId].url) == k
  {
    forall k | k in t'.urlTrie
      ensures !t'.urlTrie[k].exactMatch
      ensures Indexes(t', parse, t'.urlTrie[k])
      ensures Segments(t'.routeRules[t'.urlTrie[k].routingRuleId].url) == k
    {
      if req.exactMatch || k != Segments(req.url) {
        assert t'.urlTrie[k] == t.urlTrie[k];
        assert Indexes(t, parse, t.urlTrie[k]);
      }
    }
  }

  /** The routing service object: its three tables are fields that `Create` updates in place. */
  class RoutingService {
    /** The URL parser the service validates and normalises with. */
    const parse: Parser
    var routeRules: map<Uuid, RouteRule>
    var urls: map<string, RouteRule>
    var urlTrie: map<seq<string>, RouteRule>

    function State(): Tables
      reads this
    {
      Tables(routeRules, urls, urlTrie)
    }

    ghost predicate Valid()
      reads this
    {
      Consistent(State(), parse)
    }

    constructor (parse: Parser)
      ensures Valid()
      ensures this.parse == parse && State() == EmptyTables
    {
      this.parse := parse;
      routeRules := map[];
      urls := map[];
      urlTrie := map[];
    }

    /** `get`: reads the rule stored under an id; changes nothing. */
    method Get(id: Uuid) returns (r: Result<RouteRule, RoutingError>)
      ensures r == Lookup(State(), id)
    {
      if id in routeRules {
        return Ok(routeRules[id]);
      }
      return Err(NoRouteRuleFound(id));
    }

    /**
     * `create` with `newId` as the freshly generated id. Validation runs before
     * any table is written, so a rejected url leaves the service as it was.
     */
    method Create(req: CreateRouteRule, newId: Uuid) returns (r: Result<Uuid, RoutingError>)
      requires Valid()
      requires newId !in routeRules
      modifies this
      ensures Valid()
      ensures r.Ok? <==> parse(req.url).Some?
      ensures r.Ok? ==> r.value == newId && State() == AfterCreate(old(State()), parse, req, newId).value
      ensures r.Err? ==> r.error == ValidationError(req.url) && State() == old(State())
    {
      var validated := ValidateUrl(parse, req.url);
      if validated.Err? {
        return Err(validated.error);
      }
      routeRules := routeRules[newId := RouteRule(req.url, req.target, req.exactMatch, newId)];
      var normalized := NormalizeUrl(parse, req.url).value;
      var current := RouteRule(normalized, req.target, req.exactMatch, newId);
      urls := urls[normalized := current];
      if !req.exactMatch {
        urlTrie := urlTrie[Segments(req.url) := current];
      }
      CreatePreservesConsistent(old(State()), parse, req, newId);
      return Ok(newId);
    }
  }
}
