/**
 * cmd/api/routes.go: the route table, with the permission each route is
 * wrapped in, the router's two fallbacks and the fixed nesting of the
 * middleware around the router. The router's own behaviour is reduced to
 * segment-wise matching; its automatic OPTIONS answers and trailing-slash
 * redirects are not modelled.
 */
module Routes {
  import opened Wrappers
  import opened Responses

  /** A pattern segment: fixed text, or a `:name` parameter matching one non-empty segment. */
  datatype Segment = Lit(text: string) | Param(name: string)

  datatype Endpoint =
    | HealthCheck | ListItems | CreateItem | ShowItem | UpdateItem | DeleteItem
    | RegisterUser | ActivateUser | CreateAuthenticationToken | DebugVars

  /** One registration: method, pattern, handler and the permission `requirePermission` demands, if any. */
  datatype Route = Route(verb: string, pattern: seq<Segment>, endpoint: Endpoint, permission: Option<string>)

  const Items: seq<Segment> := [Lit("v1"), Lit("items")]
  const Item: seq<Segment> := [Lit("v1"), Lit("items"), Param("id")]

  /** The registrations, in source order. */
  const Table: seq<Route> := [
    Route("GET", [Lit("v1"), Lit("healthcheck")], HealthCheck, None),
    Route("GET", Items, ListItems, Some("items:read")),
    Route("POST", Items, CreateItem, Some("items:write")),
    Route("GET", Item, ShowItem, Some("items:read")),
    Route("PATCH", Item, UpdateItem, Some("items:write")),
    Route("DELETE", Item, DeleteItem, Some("items:write")),
    Route("POST", [Lit("v1"), Lit("users")], RegisterUser, None),
    Route("PUT", [Lit("v1"), Lit("users"), Lit("activated")], ActivateUser, None),
    Route("POST", [Lit("v1"), Lit("tokens"), Lit("authentication")], CreateAuthenticationToken, None),
    Route("GET", [Lit("debug"), Lit("vars")], DebugVars, None)
  ]

  predicate SegmentMatches(s: Segment, part: string)
  {
    match s
    case Lit(text) => part == text
    case Param(_) => part != ""
  }

  /** A path, split at its slashes, fits a pattern segment by segment. */
  predicate Matches(pattern: seq<Segment>, path: seq<string>)
  {
    |pattern| == |path| && forall i :: 0 <= i < |path| ==> SegmentMatches(pattern[i], path[i])
  }

  datatype Resolution = Dispatch(route: Route) | Fallback(helper: Helper)

  /** The first route among `routes` with this method whose pattern fits the path. */
  function Find(routes: seq<Route>, verb: string, path: seq<string>): (r: Option<nat>)
    ensures r.Some? ==> r.value < |routes| && routes[r.value].verb == verb && Matches(routes[r.value].pattern, path)
    ensures r.Some? ==> forall i :: 0 <= i < r.value ==> !(routes[i].verb == verb && Matches(routes[i].pattern, path))
    ensures r.None? ==> forall i :: 0 <= i < |routes| ==> !(routes[i].verb == verb && Matches(routes[i].pattern, path))
  {
    if routes == [] then None
    else if routes[0].verb == verb && Matches(routes[0].pattern, path) then Some(0)
    else
      var r := Find(routes[1..], verb, path);
      if r.Some? then Some(r.value + 1) else None
  }

  /** Some route, with any method, fits the path. */
  predicate Known(path: seq<string>)
  {
    exists i :: 0 <= i < |Table| && Matches(Table[i].pattern, path)
  }

  /** The router: a fitting route, else `methodNotAllowedResponse` when only the method is wrong, else `notFoundResponse`. */
  function Resolve(verb: string, path: seq<string>): (r: Resolution)
    ensures r.Dispatch? ==> r.route in Table && r.route.verb == verb && Matches(r.route.pattern, path)
    ensures r.Fallback? ==> forall route :: route in Table ==> !(route.verb == verb && Matches(route.pattern, path))
  {
    var found := Find(Table, verb, path);
    if found.Some? then Dispatch(Table[found.value])
    else if Known(path) then Fallback(MethodNotAllowed(verb))
    else Fallback(NotFound)
  }

  /** The fallback a request with no fitting route gets: method not allowed exactly when the path is known. */
  lemma ResolveFallback(verb: string, path: seq<string>)
    requires Resolve(verb, path).Fallback?
    ensures Resolve(verb, path).helper == MethodNotAllowed(verb) <==> Known(path)
    ensures Resolve(verb, path).helper == NotFound <==> !Known(path)
  {
  }

  /** At most one route fits a request: the table is a function of (method, path). */
  lemma Unambiguous(i: int, j: int, path: seq<string>)
    requires 0 <= i < |Table| && 0 <= j < |Table|
    requires Table[i].verb == Table[j].verb && Matches(Table[i].pattern, path) && Matches(Table[j].pattern, path)
    ensures i == j
  {
    assert |path| >= 2;
    assert SegmentMatches(Table[i].pattern[0], path[0]) && SegmentMatches(Table[j].pattern[0], path[0]);
    assert SegmentMatches(Table[i].pattern[1], path[1]) && SegmentMatches(Table[j].pattern[1], path[1]);
    if |path| == 3 {
      assert SegmentMatches(Table[i].pattern[2], path[2]) && SegmentMatches(Table[j].pattern[2], path[2]);
    }
  }

  /** No (method, pattern) pair is registered twice. */
  lemma RegisteredOnce(i: int, j: int)
    requires 0 <= i < j < |Table|
    ensures (Table[i].verb, Table[i].pattern) != (Table[j].verb, Table[j].pattern)
  {
  }

  /** Reading the items needs `items:read`; changing them needs `items:write`; no other route needs a permission. */
  lemma Permissions(route: Route)
    requires route in Table
    ensures route.permission == Some("items:read") <==> route.endpoint in {ListItems, ShowItem}
    ensures route.permission == Some("items:write") <==> route.endpoint in {CreateItem, UpdateItem, DeleteItem}
    ensures route.permission.None? <==>
      route.endpoint in {HealthCheck, RegisterUser, ActivateUser, CreateAuthenticationToken, DebugVars}
  {
  }

  /** A request that reaches an item route passes its permission check first, whatever its path. */
  lemma ItemRoutesGuarded(verb: string, path: seq<string>)
    requires Resolve(verb, path).Dispatch?
    requires Resolve(verb, path).route.pattern in {Items, Item}
    ensures Resolve(verb, path).route.permission == Some(if verb == "GET" then "items:read" else "items:write")
  {
  }

  // ---------------------------------------------------------------------------
  // The middleware around the router

  datatype Layer = Metrics | RecoverPanic | EnableCORS | RateLimit | Authenticate

  /** A handler as composed: the router, or one layer wrapped around an inner handler. */
  datatype Stack = Router | Wrapped(layer: Layer, inner: Stack)

  /** The layers from the outermost inwards. */
  const Chain: seq<Layer> := [Metrics, RecoverPanic, EnableCORS, RateLimit, Authenticate]

  /** `layers[0](layers[1](... (inner)))`. */
  function Compose(layers: seq<Layer>, inner: Stack): Stack
  {
    if layers == [] then inner else Wrapped(layers[0], Compose(layers[1..], inner))
  }

  /** The layers a request passes, in order, before it reaches the router. */
  function Layers(s: Stack): seq<Layer>
  {
    match s
    case Router => []
    case Wrapped(layer, inner) => [layer] + Layers(inner)
  }

  /** A request passes exactly the composed layers, in the order they are written. */
  lemma {:induction false} LayersCompose(layers: seq<Layer>)
    ensures Layers(Compose(layers, Router)) == layers
  {
    if layers != [] {
      LayersCompose(layers[1..]);
    }
  }

  /** The handler `routes` returns: metrics outermost, authentication innermost, then the router. */
  function Handler(): (s: Stack)
    ensures Layers(s) == Chain
    ensures s.layer == Metrics
  {
    LayersCompose(Chain);
    Compose(Chain, Router)
  }
}
