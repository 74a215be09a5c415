/** The sweets router: every route first runs requireAuth; create, update,
    delete and restock then run requireAdmin; only then does the handler run.
    The guards run in order like a middleware chain, and the first guard that
    refuses answers the request. */
module SweetRoutes {
  import opened Outcomes
  import opened Identity
  import opened Catalog
  import opened AuthMiddleware
  import Users

  datatype Route =
    | CreateRoute | ListRoute | SearchRoute | UpdateRoute
    | DeleteRoute | PurchaseRoute | RestockRoute

  datatype Guard = Authenticate | AdminOnly

  /** The guards each route runs before its handler, in order. */
  function Chain(route: Route): seq<Guard>
  {
    match route
    case CreateRoute => [Authenticate, AdminOnly]
    case ListRoute => [Authenticate]
    case SearchRoute => [Authenticate]
    case UpdateRoute => [Authenticate, AdminOnly]
    case DeleteRoute => [Authenticate, AdminOnly]
    case PurchaseRoute => [Authenticate]
    case RestockRoute => [Authenticate, AdminOnly]
  }

  /** The access policy: the routes reserved for admins. Every other route
      is open to any authenticated user. */
  predicate AdminRoute(route: Route)
  {
    route in {CreateRoute, UpdateRoute, DeleteRoute, RestockRoute}
  }

  /** Runs guards in order, threading the user that requireAuth attaches to
      the request; the first refusal is the answer. */
  function RunGuards(gs: seq<Guard>, header: Option<string>, verify: string -> Option<Claims>,
                     user: Option<Principal>): (r: Result<Option<Principal>>)
    decreases |gs|
  {
    if |gs| == 0 then Ok(user)
    else match gs[0]
      case Authenticate =>
        (match RequireAuth(header, verify)
         case Err(e) => Err(e)
         case Ok(p) => RunGuards(gs[1..], header, verify, Some(p)))
      case AdminOnly =>
        (match RequireAdmin(user)
         case Err(e) => Err(e)
         case Ok(_) => RunGuards(gs[1..], header, verify, user))
  }

  /** Every route authenticates before anything else runs. */
  lemma AuthenticateComesFirst(route: Route)
    ensures |Chain(route)| >= 1 && Chain(route)[0] == Authenticate
    ensures AdminOnly in Chain(route) <==> AdminRoute(route)
  {
  }

  /** The outcome of a route's guard chain, in terms of the policy: an
      authentication failure is reported as such, before any role check; an
      authenticated customer is refused the admin routes; everyone else
      passes with the verified user attached. */
  function Authorize(route: Route, header: Option<string>, verify: string -> Option<Claims>)
    : (r: Result<Option<Principal>>)
    ensures RequireAuth(header, verify).Err? ==> r == Err(RequireAuth(header, verify).error)
    ensures (RequireAuth(header, verify).Ok? && AdminRoute(route)
             && RequireAuth(header, verify).value.role != Admin) ==> r == Err(Forbidden)
    ensures r.Ok? <==>
            RequireAuth(header, verify).Ok?
            && (AdminRoute(route) ==> RequireAuth(header, verify).value.role == Admin)
    ensures r.Ok? ==> r.value == Some(RequireAuth(header, verify).value)
  {
    ChainOutcome(route, header, verify);
    RunGuards(Chain(route), header, verify, None)
  }

  /** Unfolds a route's guard chain: authentication, then the admin guard on
      the admin routes. */
  lemma ChainOutcome(route: Route, header: Option<string>, verify: string -> Option<Claims>)
    ensures var auth := RequireAuth(header, verify);
      RunGuards(Chain(route), header, verify, None)
      == if auth.Err? then Err(auth.error)
         else if AdminRoute(route) then RunGuards([AdminOnly], header, verify, Some(auth.value))
         else Ok(Some(auth.value))
  {
  }

  /** A sweets request as the handlers see it. */
  datatype Request =
    | CreateReq(fields: NewSweet)
    | ListReq
    | SearchReq(filters: Filters)
    | UpdateReq(id: int, patch: Patch)
    | DeleteReq(id: int)
    | PurchaseReq(id: int, qty: Quantity)
    | RestockReq(id: int, qty: Quantity)

  function RouteOf(req: Request): Route
  {
    match req
    case CreateReq(_) => CreateRoute
    case ListReq => ListRoute
    case SearchReq(_) => SearchRoute
    case UpdateReq(_, _) => UpdateRoute
    case DeleteReq(_) => DeleteRoute
    case PurchaseReq(_, _) => PurchaseRoute
    case RestockReq(_, _) => RestockRoute
  }

  /** What a handler answers with on success. */
  datatype Reply = One(row: Row) | Many(rows: seq<Row>) | NoContent

  function OneRow(step: Step<Row, Store>): Step<Reply, Store>
  {
    match step.outcome
    case Ok(row) => Step(Ok(One(row)), step.state)
    case Err(e) => Step(Err(e), step.state)
  }

  /** Runs the handler of a request, past the guards. */
  function Handle(s: Store, req: Request): (r: Step<Reply, Store>)
    requires Valid(s)
    ensures Valid(r.state)
  {
    match req
    case CreateReq(f) => OneRow(Create(s, f))
    case ListReq => Step(Ok(Many(List(s))), s)
    case SearchReq(f) => Step(Ok(Many(Search(s, f))), s)
    case UpdateReq(id, p) => OneRow(Update(s, id, p))
    case DeleteReq(id) =>
      var d := Delete(s, id);
      Step(if d.outcome.Ok? then Ok(NoContent) else Err(d.outcome.error), d.state)
    case PurchaseReq(id, q) => OneRow(Purchase(s, id, q))
    case RestockReq(id, q) => OneRow(Restock(s, id, q))
  }

  /** A request through the router: guards, then handler. A request the
      guards refuse leaves the table as it was; nothing succeeds or changes
      the table without a verified token, and nothing on an admin route does
      so without the admin role. */
  function Serve(s: Store, header: Option<string>, verify: string -> Option<Claims>,
                 req: Request): (r: Step<Reply, Store>)
    requires Valid(s)
    ensures Valid(r.state)
    ensures Authorize(RouteOf(req), header, verify).Err? ==>
            r == Step(Err(Authorize(RouteOf(req), header, verify).error), s)
    ensures (r.outcome.Ok? || r.state != s) ==>
            && RequireAuth(header, verify).Ok?
            && (AdminRoute(RouteOf(req)) ==> RequireAuth(header, verify).value.role == Admin)
  {
    match Authorize(RouteOf(req), header, verify)
    case Err(e) => Step(Err(e), s)
    case Ok(_) => Handle(s, req)
  }

  /** Without a verified token every request is refused with Unauthorized or
      InvalidToken, never Forbidden, and never reaches its handler. */
  lemma UnauthenticatedRequestsRejected(s: Store, header: Option<string>,
                                        verify: string -> Option<Claims>, req: Request)
    requires Valid(s)
    requires RequireAuth(header, verify).Err?
    ensures var r := Serve(s, header, verify, req);
      && r.state == s
      && r.outcome.Err?
      && r.outcome.error in {Unauthorized, InvalidToken}
  {
  }

  /** An authenticated customer may list, search and purchase, with exactly
      the handler's effect, and is refused with Forbidden everywhere else. */
  lemma CustomerAccess(s: Store, header: Option<string>, verify: string -> Option<Claims>,
                       req: Request)
    requires Valid(s)
    requires RequireAuth(header, verify).Ok? && RequireAuth(header, verify).value.role == Customer
    ensures req.ListReq? || req.SearchReq? || req.PurchaseReq? ==>
            Serve(s, header, verify, req) == Handle(s, req)
    ensures !(req.ListReq? || req.SearchReq? || req.PurchaseReq?) ==>
            Serve(s, header, verify, req) == Step(Err(Forbidden), s)
  {
  }

  /** An authenticated admin reaches every handler. */
  lemma AdminAccess(s: Store, header: Option<string>, verify: string -> Option<Claims>,
                    req: Request)
    requires Valid(s)
    requires RequireAuth(header, verify).Ok? && RequireAuth(header, verify).value.role == Admin
    ensures Serve(s, header, verify, req) == Handle(s, req)
  {
  }

  /** From registration to restock: a user who registers and presents the
      issued token may restock iff they asked for the admin role. This holds
      for any signing scheme whose tokens contain no spaces and verify back
      to the claims they were signed over. */
  lemma RegisteredRoleDecidesRestock(
    g: Users.Registry, form: Users.Registration, hash: string -> string,
    sign: Claims -> string, verify: string -> Option<Claims>,
    s: Store, id: int, qty: Quantity)
    requires Users.Valid(g) && Valid(s)
    requires Truthy(form.name) && Truthy(form.email) && Truthy(form.password)
    requires form.email.value !in g.users
    requires forall c :: ' ' !in sign(c) && verify(sign(c)) == Some(c)
    ensures var session := Users.Register(g, form, hash).outcome.value;
      var r := Serve(s, BearerHeader(sign(session.token)), verify, RestockReq(id, qty));
      && (form.role == Some("admin") ==> r == OneRow(Restock(s, id, qty)))
      && (form.role != Some("admin") ==> r == Step(Err(Forbidden), s))
  {
    var session := Users.Register(g, form, hash).outcome.value;
    AuthenticateBearer(sign(session.token), verify);
  }
}
