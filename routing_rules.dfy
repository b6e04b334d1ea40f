/** The record types of the routing core and the errors its operations raise. */
module RoutingRules {

  /** A UUID. The routing core only compares identifiers for equality, so their 128-bit width plays no part. */
  type Uuid = nat

  /** A stored routing rule: the url it was registered under, its opaque target and its own id. */
  datatype RouteRule = RouteRule(url: string, target: Uuid, exactMatch: bool, routingRuleId: Uuid)

  /** A request to register a rule; the service assigns the id. */
  datatype CreateRouteRule = CreateRouteRule(url: string, target: Uuid, exactMatch: bool)

  /** The exceptions of the core: the URL parser's validation error, an unknown rule id, and no route for a url. */
  datatype RoutingError =
    | ValidationError(url: string)
    | NoRouteRuleFound(routingRuleId: Uuid)
    | NoRouteFound(url: string)
}
