# Routing table and resolver

This project models the in-memory URL routing core of `routing-exam`. It proves properties of that model in Dafny.

- **Registry.** `RoutingService` keeps three tables:
  - `route_rules`: rules by id, each holding the original url.
  - `urls`: the exact-match index, keyed by normalised url. It is written for every rule, and the last write wins.
  - `url_trie`: a trie keyed by the original url split at `/`. Only prefix rules are written there.
- **Canonicalisation.** `parse_url_params` and `normalize_url` rebuild a url as `scheme://host`, then the path or `/`, then, when there is a query, `?` and its distinct `&`-separated tokens in sorted order.
- **Resolver.** `RoutingResolverService.resolve` looks up the normalised url in the exact-match index. Failing that, it takes the longest trie key that is a segment prefix of the raw url. Failing both, it raises `NoRouteFoundError`.

Layout, one Dafny module per file:

- `results.dfy`: `Option` and `Result`.
- `text.dfy`: Python's `str.split`, `str.join`, the code-point order on strings and `sorted(set(...))`.
- `routing_rules.dfy`: the rule records and the error kinds.
- `normalization.dfy`: validation and canonicalisation.
- `routing_service.dfy`: the registry.
  - The tables as a value (`Tables`), with `Lookup` and `AfterCreate` stating `get` and `create` on it.
  - The consistency invariant between the three tables.
  - The class `RoutingService`, whose three map fields `Create` updates in place.
- `routing_resolver_service.dfy`: the resolver.
  - `ResolveIn` is a function of the tables.
  - The class `RoutingResolverService` holds the service and reads it without modifying it.
- `scenarios.dfy`: the behaviours the repository's unit tests pin down, stated for any base url and any parser.

Modelling choices:

- **URL parser.** pydantic's `HttpUrl` is a parameter `parse: string -> Option<UrlParts>`. `None` means the url is rejected. Otherwise it yields the url's scheme, host, path and query, as in section 3 of RFC 3986, with an absent path or query given as `""`. Every property is stated relative to this parser.
- **Ids.** `uuid4` is replaced by an id the caller supplies, under the precondition that no rule has it yet. Ids and targets are `nat`.
- **The trie.** `pygtrie.StringTrie(separator="/")` is a map from the url's `/`-split segments to a rule. Its `longest_prefix` is the longest key in the map that is a sequence prefix of the query's segments, so `.../abc` is not a prefix of `.../abcd`.
- **Errors.** Python exceptions become `Err` values: `ValidationError(url)`, `NoRouteRuleFound(id)` and `NoRouteFound(url)`.
- **Both indexes for a prefix rule.** A prefix rule is written to the exact-match index (`main/routing_service.py:49`) and to the trie (`main/routing_service.py:51-52`). It therefore also answers its own normalised url through the exact lookup (`CreatedRuleResolvesItself`).

## Model

| member | source | states |
|---|---|---|
| Text.Split | main/routing_service.py:72 | `query.split('&')`: always at least one piece, and no piece contains the separator |
| Text.Join | main/routing_service.py:89 | `'&'.join(ts)`: empty for no tokens; otherwise it starts with the first token, followed by the separator when there are more; `SplitJoin` and `JoinSplit` make it the inverse of `Split` |
| Text.JoinSplit | main/routing_service.py:72 | joining the pieces of a split with the same separator gives back the string |
| Text.SplitJoin | main/routing_service.py:89 | splitting the `&`-join of at least one `&`-free token gives back exactly those tokens |
| Text.SplitConcat | main/routing_service.py:72 | splitting `a + sep + b` splits `a` and `b` independently and concatenates the pieces |
| Text.SplitAllSeparators | main/routing_service.py:72 | a string made only of separators splits into one more empty piece than it has characters |
| Text.SplitWithoutSeparator | main/routing_service.py:72 | a string without the separator splits into itself alone |
| Text.LessTotal | main/routing_service.py:72 | Python's string `<` orders any two distinct strings one way or the other |
| Text.LessAsymmetric | main/routing_service.py:72 | Python's string `<` never holds both ways |
| Text.Less | main/routing_service.py:72 | Python's `<` on strings, the order `sorted` uses: never holds between equal strings, and a proper prefix is smaller |
| Text.Insert | main/routing_service.py:72 | inserting into a strictly increasing list keeps it strictly increasing; the result holds exactly the old tokens and the new one |
| Text.SortedUnique | main/routing_service.py:72 | `sorted(set(ts))` is strictly increasing, holds exactly the tokens of `ts`, and is non-empty when `ts` is |
| Text.StrictlyIncreasingUnique | main/routing_service.py:72 | two strictly increasing lists with the same elements are equal |
| Text.SortedUniqueOfSameElements | main/routing_service.py:72 | `sorted(set(ts))` depends only on which tokens occur, not on their order or repetition |
| Text.SortedUniqueOfIncreasing | main/routing_service.py:72 | `sorted(set(ts))` leaves an already strictly increasing list unchanged |
| Normalization.ValidateUrl | main/routing_service.py:92-98 | succeeds exactly when the parser accepts the url, returning the parser's components; otherwise the validation error for that url |
| Normalization.PathOrRoot | main/routing_service.py:66-69 | never empty: the path itself when the url has one, `/` otherwise |
| Normalization.BaseUrl | main/routing_service.py:65-69 | starts with `scheme://host` and goes on with exactly the path, or `/` when the path is empty |
| Normalization.ParseUrlParams | main/routing_service.py:55-74 | succeeds exactly when the parser accepts the url; otherwise the validation error |
| Normalization.ParseUrlParamsShape | main/routing_service.py:64-73 | the base url is `scheme://host` followed by the path or `/`; query tokens are present exactly when the query is non-empty, and then strictly increasing, non-empty, and exactly the query's `&`-tokens |
| Normalization.NormalizeUrl | main/routing_service.py:76-90 | succeeds exactly when the parser accepts the url; otherwise the validation error |
| Normalization.NormalizeUrlShape | main/routing_service.py:86-90 | the canonical url is the base url alone when the query is empty; otherwise it is the base url, `?`, and the sorted distinct tokens joined with `&` |
| Normalization.NormalizeEqualIffSameTokens | main/routing_service.py:70-72 | two urls with the same base url normalise equally if and only if their queries hold the same set of tokens, so order and duplicates do not matter |
| Normalization.QueryTokensAreSeparatorFree | main/routing_service.py:72 | no token of the sorted distinct list contains `&` |
| Normalization.NormalizeIdempotent | main/routing_service.py:76-90 | normalising a canonical url again gives the same url, when the parser reads the canonical url back into its components and the query has a non-empty token |
| Normalization.SeparatorOnlyQueryText | main/routing_service.py:72 | the sorted distinct tokens of a non-empty query made only of `&` join to the empty string |
| Normalization.NormalizeSeparatorOnlyQuery | main/routing_service.py:86-90 | a non-empty query made only of `&` (`&`, `&&`, …) normalises to the base url with a bare `?`; a parser reading that url's query as empty normalises it again to the base url alone |
| Registry.Lookup | main/routing_service.py:17-25 | `get`: the stored rule when the id is present; otherwise `NoRouteRuleFound` with that id |
| Registry.Segments | main/routing_service.py:52 | the trie key of a url, as the `/`-separated trie splits it: at least one segment, none containing `/`; `JoinSplit` rejoins them into the url |
| Registry.AfterCreate | main/routing_service.py:34-52 | `create` fails with the validation error exactly when the parser rejects the url |
| Registry.AfterCreateSpec | main/routing_service.py:34-52 | after `create`, `get` of the new id returns the request's url, target, flag and id, and the ids are the old ones plus the new one, each other id keeping its rule; the exact-match index gains the normalised url with the new target and id whatever the flag, and other keys are unchanged; the trie is unchanged for an exact rule, and for a prefix rule gains the original url's segments and keeps its other keys |
| Registry.EmptyConsistent | main/routing_service.py:12-15 | the empty tables satisfy the invariant between the three tables |
| Registry.CreatePreservesConsistent | main/routing_service.py:34-52 | a successful `create` preserves that invariant: rules under their own ids with valid urls, indexed under their normalised url and, for prefix rules, their segments; every index entry stands for a stored rule |
| Registry.StoredRulesStayIndexed | main/routing_service.py:37-52 | after `create` every stored rule is still indexed under its normalised url and, for a prefix rule, its segments |
| Registry.IndexEntriesStayValid | main/routing_service.py:43-52 | after `create` every exact-index and trie entry still stands for a stored rule |
| Registry.UrlEntriesStayValid | main/routing_service.py:43-49 | after `create` every exact-index entry stands for a stored rule filed under that rule's normalised url |
| Registry.TrieEntriesStayValid | main/routing_service.py:51-52 | after `create` every trie entry stands for a stored prefix rule filed under that rule's segments |
| Registry.RoutingService.constructor | main/routing_service.py:12-15 | the service starts with three empty tables, which satisfy the invariant |
| Registry.RoutingService.Get | main/routing_service.py:17-25 | returns `Lookup` of the current tables and changes nothing |
| Registry.RoutingService.Create | main/routing_service.py:27-53 | validation comes first: a rejected url raises the validation error and leaves all three tables as they were; otherwise the method returns the new id, the tables become `AfterCreate` of the old ones, and the invariant is kept |
| Resolver.RoutingResolverService.constructor | main/routing_resolver_service.py:7-8 | the resolver holds the routing service it is given, whose tables it then reads |
| Resolver.FindRuleByUrl | main/routing_resolver_service.py:27-33 | finds a rule exactly when the url is a key of the exact-match index, and returns that entry |
| Resolver.LongestPrefixUpTo | main/routing_resolver_service.py:35-41 | the longest trie key of length at most `n` that is a prefix of the key, or none when every such prefix is longer |
| Resolver.LongestPrefix | main/routing_resolver_service.py:35-41 | the trie's `longest_prefix`: a stored key that is a segment prefix of the query and at least as long as every other such key; none exactly when no stored key is a prefix |
| Resolver.LongestPrefixUnique | main/routing_resolver_service.py:35-41 | no other stored prefix of the query is as long as the longest one |
| Resolver.FindRuleByPrefix | main/routing_resolver_service.py:35-41 | the rule of a longest stored segment prefix of the raw url; none exactly when no stored key is a prefix |
| Resolver.ResolveIn | main/routing_resolver_service.py:10-25 | a rejected url raises the validation error, and the only other error is `NoRouteFound(url)`; an exact-index hit on the normalised url wins; otherwise the target of a longest segment prefix; `NoRouteFound(url)` if and only if the url is valid and neither lookup hits |
| Resolver.LongestPrefixDecides | main/routing_resolver_service.py:21-23 | with no exact hit, a prefix key strictly longer than every other stored prefix decides the target |
| Resolver.CreatedRuleResolvesItself | main/routing_resolver_service.py:18-20 | right after `create`, resolving the rule's own url returns its target, whether or not it is an exact rule, because the exact-match index is written for every rule |
| Resolver.ResolvedTargetIsStored | main/routing_resolver_service.py:10-25 | in consistent tables every resolved target is the target of some stored rule |
| Resolver.RoutingResolverService.Resolve | main/routing_resolver_service.py:10-25 | returns `ResolveIn` of the service's current tables; it has no `modifies` clause, so the registry is unchanged |
| Scenarios.PrefixRuleMatchesWholeSegments | test/test_routing.py:38-60 | a prefix rule at segments `S+[abc]` answers urls with segments `S+[abc]` and `S+[abc,d]`, and a url with segments `S+[abcd]` finds no route |
| Scenarios.PrefixMatchRespectsSegmentBoundaries | test/test_routing.py:38-60 | a prefix rule at `base/abc` answers `base/abc` and `base/abc/d` with its target; `base/abcd` finds no route |
| Scenarios.SegmentsBelowBase | test/test_routing.py:86-97 | `base/a`, `base/a/b`, `base/a/b/c` and `base/a/b/d` have the segments of `base` plus `a`, `b`, `c`, `d` as written |
| Scenarios.PrefixTablesAfterFourCreates | test/test_routing.py:80-95 | after an exact rule and prefix rules at segments `S+[a]`, `S+[a,b]`, `S+[a,b,c]`, the trie holds exactly those three keys with the `S+[a,b]` rule's target, and the exact index exactly the four normalised urls |
| Scenarios.LongestSegmentPrefixWins | test/test_routing.py:97-98 | with trie keys `S+[a]`, `S+[a,b]`, `S+[a,b,c]` and no exact hit, a url with segments `S+[a,b,d]` resolves to the `S+[a,b]` rule |
| Scenarios.LongestPrefixRuleWins | test/test_routing.py:80-98 | after an exact rule at `base` and prefix rules at `base/a`, `base/a/b` and `base/a/b/c`, `base/a/b/d` resolves to the `base/a/b` target |
| Scenarios.ExactRuleBeatsPrefixRule | test/test_routing.py:101-113 | an exact rule at `base/a/b` wins over the matching prefix rule at `base/a` |
| Scenarios.ExactRulesAnswerTheirOwnUrl | test/test_routing.py:63-77 | among three exact rules, the middle url resolves to its own target |
| Scenarios.QueryTokensDecideExactMatch | test/test_routing.py:116-147 | an exact rule with query `a&b` answers the same base with `b&a`, and `a` alone finds no route |
| Scenarios.DuplicateUrlLastWins | test/test_routing.py:216-232 | two rules created with the same url stay retrievable by id, and the url resolves to the later one |
| Scenarios.UnregisteredUrlHasNoRoute | test/test_routing.py:29-35 | an exact rule answers no url that normalises differently: resolving one raises `NoRouteFound` |
| Scenarios.GetUnknownIdFails | test/test_routing.py:185-190 | `get` with an id no rule was created under raises `NoRouteRuleFound` |
| Scenarios.CreateThenGet | test/test_routing.py:19-26 | through the service object, `get` of a created rule's id returns the request's url, target, flag and that id |
| Scenarios.InvalidUrlLeavesServiceEmpty | test/test_routing.py:192-202 | through the service object, a url the parser rejects makes `create` raise the validation error, and `get` then finds nothing |

## Left out

- The Flask server (`server/__main__.py`) is I/O plumbing and is not part of this model.
- pydantic's `HttpUrl` validation and component extraction are an abstract parser parameter. Nothing is claimed about which strings it accepts; for example, no claim is made that a bare `?` or `?a=` is rejected.
- The randomness of `uuid4` is replaced by a caller-supplied fresh id, so the model does not capture id collisions.
- The internals of `pygtrie.StringTrie` are replaced by a map from segment sequences with a longest-prefix specification. The trie's node structure and its traversal are not modelled.
- The 50 000-rule tests and the random url generators (`test/test_routing.py:150-180`) concern scale, not behaviour. `CreatedRuleResolvesItself` covers what they check for a single rule.
- The text of the exception messages is not modelled; the errors carry the offending url or id.
- Concurrency and the atomicity of `create` are not modelled. Each call is one atomic state change.
- NormalizeIdempotent: holds only when the query has at least one non-empty token. A query made only of `&` normalises to a url ending in a bare `?`, which a parser reading an empty query normalises again to the base url alone (`NormalizeSeparatorOnlyQuery`). Idempotence also depends on the parser reading a canonical url back into the components it was built from, which the abstract parser cannot guarantee.
- The scenario lemmas take as a hypothesis that the urls involved normalise apart where the tests rely on it. The abstract parser cannot guarantee this for distinct paths.
