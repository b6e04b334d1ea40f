/**
 * The routing behaviours the repository's unit tests pin down, stated for any
 * base url and any URL parser that keeps the urls involved apart.
 */
module Scenarios {
  import opened Results
  import opened Text
  import opened RoutingRules
  import opened Normalization
  import opened Registry
  import opened Resolver

  /** Appending `/` and more text to a url appends that text's segments to the url's segments. */
  lemma SegmentsAppend(base: string, rest: string)
    ensures Segments(base + "/" + rest) == Segments(base) + Segments(rest)
  {
    assert base + "/" + rest == base + ['/'] + rest;
    SplitConcat(base, rest, '/');
  }

  /** Appending `/` and one more segment to a url appends that segment. */
  lemma SegmentsExtend(url: string, segment: string)
    requires '/' !in segment
    ensures Segments(url + "/" + segment) == Segments(url) + [segment]
  {
    SegmentsAppend(url, segment);
    SplitWithoutSeparator(segment, '/');
  }

  /**
   * A prefix rule answers a url whose segments extend its own, and not a url
   * whose last segment merely starts with the rule's last segment.
   */
  lemma PrefixRuleMatchesWholeSegments(
    parse: Parser, rule: string, longer: string, below: string, S: seq<string>, target: Uuid, id: Uuid)
    requires Segments(rule) == S + ["abc"] && Segments(longer) == S + ["abcd"] && Segments(below) == S + ["abc", "d"]
    requires parse(rule).Some? && parse(longer).Some? && parse(below).Some?
    requires NormalizeUrl(parse, longer) != NormalizeUrl(parse, rule)
    requires NormalizeUrl(parse, below) != NormalizeUrl(parse, rule)
    ensures
      var t := AfterCreate(EmptyTables, parse, CreateRouteRule(rule, target, false), id).value;
      && ResolveIn(t, parse, longer) == Err(NoRouteFound(longer))
      && ResolveIn(t, parse, below) == Ok(target)
      && ResolveIn(t, parse, rule) == Ok(target)
  {
    var t := AfterCreate(EmptyTables, parse, CreateRouteRule(rule, target, false), id).value;
    var key := S + ["abc"];
    assert t.urlTrie.Keys == {key};
    assert !(key <= Segments(longer)) by {
      assert key[|S|] != Segments(longer)[|S|];
    }
    assert key <= Segments(below);
  }

  /** The segments of the urls `base/abc`, `base/abcd` and `base/abc/d`. */
  lemma SegmentsNextToBase(base: string)
    ensures Segments(base + "/abc") == Segments(base) + ["abc"]
    ensures Segments(base + "/abcd") == Segments(base) + ["abcd"]
    ensures Segments(base + "/abc/d") == Segments(base) + ["abc", "d"]
  {
    assert base + "/abc" == base + "/" + "abc";
    assert base + "/abcd" == base + "/" + "abcd";
    SegmentsExtend(base, "abc");
    SegmentsExtend(base, "abcd");
    assert base + "/abc/d" == (base + "/abc") + "/" + "d";
    SegmentsExtend(base + "/abc", "d");
  }

  /** A prefix rule at `base/abc` answers `base/abc` and `base/abc/d` but not `base/abcd`. */
  lemma PrefixMatchRespectsSegmentBoundaries(parse: Parser, base: string, target: Uuid, id: Uuid)
    requires parse(base + "/abc").Some? && parse(base + "/abcd").Some? && parse(base + "/abc/d").Some?
    requires NormalizeUrl(parse, base + "/abcd") != NormalizeUrl(parse, base + "/abc")
    requires NormalizeUrl(parse, base + "/abc/d") != NormalizeUrl(parse, base + "/abc")
    ensures
      var t := AfterCreate(EmptyTables, parse, CreateRouteRule(base + "/abc", target, false), id).value;
      && ResolveIn(t, parse, base + "/abcd") == Err(NoRouteFound(base + "/abcd"))
      && ResolveIn(t, parse, base + "/abc/d") == Ok(target)
      && ResolveIn(t, parse, base + "/abc") == Ok(target)
  {
    SegmentsNextToBase(base);
    PrefixRuleMatchesWholeSegments(parse, base + "/abc", base + "/abcd", base + "/abc/d", Segments(base), target, id);
  }

  /** The segments of the urls `base/a`, `base/a/b`, `base/a/b/c` and `base/a/b/d`. */
  lemma SegmentsBelowBase(base: string)
    ensures Segments(base + "/a") == Segments(base) + ["a"]
    ensures Segments(base + "/a/b") == Segments(base) + ["a", "b"]
    ensures Segments(base + "/a/b/c") == Segments(base) + ["a", "b", "c"]
    ensures Segments(base + "/a/b/d") == Segments(base) + ["a", "b", "d"]
  {
    assert base + "/a" == base + "/" + "a";
    SegmentsExtend(base, "a");
    assert base + "/a/b" == (base + "/a") + "/" + "b";
    SegmentsExtend(base + "/a", "b");
    assert base + "/a/b/c" == (base + "/a/b") + "/" + "c";
    SegmentsExtend(base + "/a/b", "c");
    assert base + "/a/b/d" == (base + "/a/b") + "/" + "d";
    SegmentsExtend(base + "/a/b", "d");
  }

  /**
   * With prefix rules at the segments `S+[a]`, `S+[a,b]` and `S+[a,b,c]` and no
   * exact hit, a url with segments `S+[a,b,d]` resolves to the `S+[a,b]` rule.
   */
  lemma LongestSegmentPrefixWins(t: Tables, parse: Parser, q: string, S: seq<string>)
    requires t.urlTrie.Keys == {S + ["a"], S + ["a", "b"], S + ["a", "b", "c"]}
    requires Segments(q) == S + ["a", "b", "d"]
    requires parse(q).Some? && NormalizeUrl(parse, q).value !in t.urls
    ensures ResolveIn(t, parse, q) == Ok(t.urlTrie[S + ["a", "b"]].target)
  {
    var k3, k4 := S + ["a", "b"], S + ["a", "b", "c"];
    assert !(k4 <= Segments(q)) by {
      assert k4[|S| + 2] != Segments(q)[|S| + 2];
    }
    assert k3 <= Segments(q);
    LongestPrefixDecides(t, parse, q, k3);
  }

  /** The tables after one exact and three nested prefix rules are created: the trie holds the three prefix rules, the exact index the four normalised urls. */
  lemma PrefixTablesAfterFourCreates(
    parse: Parser, u0: string, u1: string, u2: string, u3: string, S: seq<string>,
    t1: Uuid, t2: Uuid, t3: Uuid, t4: Uuid, id1: Uuid, id2: Uuid, id3: Uuid, id4: Uuid,
    s1: Tables, s2: Tables, s3: Tables, s4: Tables)
    requires id1 != id2 && id1 != id3 && id1 != id4 && id2 != id3 && id2 != id4 && id3 != id4
    requires Segments(u1) == S + ["a"] && Segments(u2) == S + ["a", "b"] && Segments(u3) == S + ["a", "b", "c"]
    requires parse(u0).Some? && parse(u1).Some? && parse(u2).Some? && parse(u3).Some?
    requires s1 == AfterCreate(EmptyTables, parse, CreateRouteRule(u0, t1, true), id1).value
    requires id2 !in s1.routeRules && s2 == AfterCreate(s1, parse, CreateRouteRule(u1, t2, false), id2).value
    requires id3 !in s2.routeRules && s3 == AfterCreate(s2, parse, CreateRouteRule(u2, t3, false), id3).value
    requires id4 !in s3.routeRules && s4 == AfterCreate(s3, parse, CreateRouteRule(u3, t4, false), id4).value
    ensures s4.urlTrie.Keys == {S + ["a"], S + ["a", "b"], S + ["a", "b", "c"]}
    ensures s4.urlTrie[S + ["a", "b"]].target == t3
    ensures s4.urls.Keys == {NormalizeUrl(parse, u0).value, NormalizeUrl(parse, u1).value,
                             NormalizeUrl(parse, u2).value, NormalizeUrl(parse, u3).value}
  {
    assert s3.urlTrie.Keys == {S + ["a"], S + ["a", "b"]};
  }

  /**
   * With an exact rule at `base` and prefix rules at `base/a`, `base/a/b` and
   * `base/a/b/c`, created in that order, the url `base/a/b/d` resolves to the
   * `base/a/b` rule.
   */
  lemma LongestPrefixRuleWins(
    parse: Parser, base: string, t1: Uuid, t2: Uuid, t3: Uuid, t4: Uuid, id1: Uuid, id2: Uuid, id3: Uuid, id4: Uuid,
    s1: Tables, s2: Tables, s3: Tables, s4: Tables)
    requires id1 != id2 && id1 != id3 && id1 != id4 && id2 != id3 && id2 != id4 && id3 != id4
    requires parse(base).Some? && parse(base + "/a").Some? && parse(base + "/a/b").Some?
    requires parse(base + "/a/b/c").Some? && parse(base + "/a/b/d").Some?
    requires NormalizeUrl(parse, base + "/a/b/d") != NormalizeUrl(parse, base)
    requires NormalizeUrl(parse, base + "/a/b/d") != NormalizeUrl(parse, base + "/a")
    requires NormalizeUrl(parse, base + "/a/b/d") != NormalizeUrl(parse, base + "/a/b")
    requires NormalizeUrl(parse, base + "/a/b/d") != NormalizeUrl(parse, base + "/a/b/c")
    requires s1 == AfterCreate(EmptyTables, parse, CreateRouteRule(base, t1, true), id1).value
    requires id2 !in s1.routeRules && s2 == AfterCreate(s1, parse, CreateRouteRule(base + "/a", t2, false), id2).value
    requires id3 !in s2.routeRules && s3 == AfterCreate(s2, parse, CreateRouteRule(base + "/a/b", t3, false), id3).value
    requires id4 !in s3.routeRules && s4 == AfterCreate(s3, parse, CreateRouteRule(base + "/a/b/c", t4, false), id4).value
    ensures ResolveIn(s4, parse, base + "/a/b/d") == Ok(t3)
  {
    SegmentsBelowBase(base);
    PrefixTablesAfterFourCreates(parse, base, base + "/a", base + "/a/b", base + "/a/b/c", Segments(base),
      t1, t2, t3, t4, id1, id2, id3, id4, s1, s2, s3, s4);
    LongestSegmentPrefixWins(s4, parse, base + "/a/b/d", Segments(base));
  }

  /** An exact rule at `base/a/b` answers `base/a/b` although the prefix rule at `base/a` also matches it. */
  lemma ExactRuleBeatsPrefixRule(parse: Parser, base: string, t1: Uuid, t2: Uuid, id1: Uuid, id2: Uuid)
    requires id1 != id2
    requires parse(base + "/a/b").Some? && parse(base + "/a").Some?
    requires NormalizeUrl(parse, base + "/a") != NormalizeUrl(parse, base + "/a/b")
    ensures
      var s1 := AfterCreate(EmptyTables, parse, CreateRouteRule(base + "/a/b", t1, true), id1).value;
      var s2 := AfterCreate(s1, parse, CreateRouteRule(base + "/a", t2, false), id2).value;
      && Segments(base + "/a") in s2.urlTrie
      && Segments(base + "/a") <= Segments(base + "/a/b")
      && ResolveIn(s2, parse, base + "/a/b") == Ok(t1)
  {
    assert base + "/a" == base + "/" + "a";
    SegmentsExtend(base, "a");
    assert base + "/a/b" == (base + "/a") + "/" + "b";
    SegmentsExtend(base + "/a", "b");
  }

  /**
   * An exact rule whose query is `a&b` answers a url with the same base and the
   * query `b&a`, but not one with the query `a` alone.
   */
  lemma QueryTokensDecideExactMatch(
    parse: Parser, u1: string, u2: string, u3: string, a: string, b: string, target: Uuid, id: Uuid)
    requires '&' !in a && '&' !in b && a != b
    requires parse(u1).Some? && parse(u2).Some? && parse(u3).Some?
    requires BaseUrl(parse(u2).value) == BaseUrl(parse(u1).value)
    requires BaseUrl(parse(u3).value) == BaseUrl(parse(u1).value)
    requires parse(u1).value.query == a + "&" + b
    requires parse(u2).value.query == b + "&" + a
    requires parse(u3).value.query == a
    ensures
      var t := AfterCreate(EmptyTables, parse, CreateRouteRule(u1, target, true), id).value;
      && ResolveIn(t, parse, u2) == Ok(target)
      && ResolveIn(t, parse, u3) == Err(NoRouteFound(u3))
  {
    assert a + "&" + b == Join([a, b], '&');
    assert b + "&" + a == Join([b, a], '&');
    SplitJoin([a, b], '&');
    SplitJoin([b, a], '&');
    SplitWithoutSeparator(a, '&');
    assert QueryTokens(parse(u1).value.query) == {a, b};
    assert QueryTokens(parse(u2).value.query) == {a, b};
    assert QueryTokens(parse(u3).value.query) != {a, b};
    NormalizeEqualIffSameTokens(parse, u1, u2);
    NormalizeEqualIffSameTokens(parse, u1, u3);
  }

  /**
   * Two rules created with the same url: both stay retrievable by id, and the
   * url resolves to the later one, whether or not either is an exact rule.
   */
  lemma DuplicateUrlLastWins(
    t: Tables, parse: Parser, u: string, t1: Uuid, t2: Uuid, e1: bool, e2: bool, id1: Uuid, id2: Uuid)
    requires id1 != id2 && id1 !in t.routeRules && id2 !in t.routeRules
    requires parse(u).Some?
    ensures
      var s1 := AfterCreate(t, parse, CreateRouteRule(u, t1, e1), id1).value;
      var s2 := AfterCreate(s1, parse, CreateRouteRule(u, t2, e2), id2).value;
      && Lookup(s2, id1) == Ok(RouteRule(u, t1, e1, id1))
      && Lookup(s2, id2) == Ok(RouteRule(u, t2, e2, id2))
      && ResolveIn(s2, parse, u) == Ok(t2)
  {
  }

  /** An exact rule answers no other url: a url that normalises differently finds no route. */
  lemma UnregisteredUrlHasNoRoute(parse: Parser, u1: string, u2: string, target: Uuid, id: Uuid)
    requires parse(u1).Some? && parse(u2).Some?
    requires NormalizeUrl(parse, u1) != NormalizeUrl(parse, u2)
    ensures
      var t := AfterCreate(EmptyTables, parse, CreateRouteRule(u1, target, true), id).value;
      ResolveIn(t, parse, u2) == Err(NoRouteFound(u2))
  {
  }

  /**
   * Exact rules at three urls that normalise apart, created in order: the middle
   * url resolves to its own rule, not to the earlier or later one.
   */
  lemma ExactRulesAnswerTheirOwnUrl(
    parse: Parser, u1: string, u2: string, u3: string, t1: Uuid, t2: Uuid, t3: Uuid, id1: Uuid, id2: Uuid, id3: Uuid)
    requires id1 != id2 && id1 != id3 && id2 != id3
    requires parse(u1).Some? && parse(u2).Some? && parse(u3).Some?
    requires NormalizeUrl(parse, u3) != NormalizeUrl(parse, u2)
    ensures
      var s1 := AfterCreate(EmptyTables, parse, CreateRouteRule(u1, t1, true), id1).value;
      var s2 := AfterCreate(s1, parse, CreateRouteRule(u2, t2, true), id2).value;
      var s3 := AfterCreate(s2, parse, CreateRouteRule(u3, t3, true), id3).value;
      ResolveIn(s3, parse, u2) == Ok(t2)
  {
  }

  /** `get` with an id no rule was created under, such as a target, raises the not-found error. */
  lemma GetUnknownIdFails(parse: Parser, u: string, target: Uuid, id: Uuid, other: Uuid)
    requires parse(u).Some?
    requires other != id
    ensures
      var t := AfterCreate(EmptyTables, parse, CreateRouteRule(u, target, true), id).value;
      Lookup(t, other) == Err(NoRouteRuleFound(other))
  {
  }

  /** Through the service object: a created rule is returned by `Get` with its url, target, flag and id. */
  method CreateThenGet(parse: Parser, req: CreateRouteRule, id: Uuid) returns (got: Result<RouteRule, RoutingError>)
    requires parse(req.url).Some?
    ensures got == Ok(RouteRule(req.url, req.target, req.exactMatch, id))
  {
    var service := new RoutingService(parse);
    var created := service.Create(req, id);
    got := service.Get(id);
  }

  /** Through the service objects: a url the parser rejects is refused by `Create` and leaves the service empty. */
  method InvalidUrlLeavesServiceEmpty(parse: Parser, req: CreateRouteRule, id: Uuid)
    returns (created: Result<Uuid, RoutingError>, got: Result<RouteRule, RoutingError>)
    requires parse(req.url).None?
    ensures created == Err(ValidationError(req.url))
    ensures got == Err(NoRouteRuleFound(id))
  {
    var service := new RoutingService(parse);
    created := service.Create(req, id);
    got := service.Get(id);
  }
}
