/**
 * The route table: each route's middleware chain in declaration order,
 * with the authentication gate mounted by `use` between the two public
 * user routes and the shopping-list routes, and the pipeline that runs a
 * chain until a middleware answers or the handler is reached.
 */
module Router {
  import opened Basics
  import opened Json
  import opened ListRecords
  import opened Users
  import opened Roles
  import opened AuthorizeRequest
  import ShoppingListSchema
  import ItemSchema
  import ItemStatusSchema
  import UserSchema

  datatype Verb = Get | Post | Delete | Patch

  /** The body schemas the routes validate against. */
  datatype Schema = UserBody | ShoppingListBody | MemberBody | ItemBody | ItemStatusBody

  datatype Handler =
    | Login | Register
    | CreateList | ListLists | GetList | DeleteList
    | AddMember | RemoveMember
    | AddItem | RemoveItem | UpdateItem

  datatype Middleware = RequireToken | ValidateBody(schema: Schema) | RequireRole(role: Role) | Handle(handler: Handler)

  /** A `router.use(m)` or a `router.<verb>(path, ...chain)` declaration. */
  datatype Declaration = Use(middleware: Middleware) | Route(verb: Verb, path: string, chain: seq<Middleware>)

  /** The router's declarations, in order. */
  const Declarations: seq<Declaration> := [
    Route(Post, "/user/login", [Handle(Login)]),
    Route(Post, "/user/register", [ValidateBody(UserBody), Handle(Register)]),
    Use(RequireToken),
    Route(Post, "/shoppingList", [ValidateBody(ShoppingListBody), Handle(CreateList)]),
    Route(Get, "/shoppingList", [Handle(ListLists)]),
    Route(Get, "/shoppingList/:id", [RequireRole(Member), Handle(GetList)]),
    Route(Delete, "/shoppingList/:id", [RequireRole(Owner), Handle(DeleteList)]),
    Route(Post, "/shoppingList/:id/members/", [ValidateBody(MemberBody), RequireRole(Owner), Handle(AddMember)]),
    Route(Delete, "/shoppingList/:id/members/:idMember", [RequireRole(Member), Handle(RemoveMember)]),
    Route(Post, "/shoppingList/:id/items/", [ValidateBody(ItemBody), RequireRole(Member), Handle(AddItem)]),
    Route(Delete, "/shoppingList/:id/items/:idItem", [RequireRole(Member), Handle(RemoveItem)]),
    Route(Patch, "/shoppingList/:id/items/:idItem", [ValidateBody(ItemStatusBody), RequireRole(Member), Handle(UpdateItem)])
  ]

  /** The middleware mounted by `use` among the first n declarations, in order. */
  function UsesBefore(decls: seq<Declaration>, n: nat): (r: seq<Middleware>)
    requires n <= |decls|
    ensures forall m :: m in r <==> exists k :: 0 <= k < n && decls[k] == Use(m)
  {
    if n == 0 then []
    else
      var prev := UsesBefore(decls, n - 1);
      if decls[n - 1].Use? then prev + [decls[n - 1].middleware] else prev
  }

  /** The chain a request matched by declaration k runs through: the earlier `use` middleware, then its own. */
  function EffectiveChain(k: nat): seq<Middleware>
    requires k < |Declarations| && Declarations[k].Route?
  {
    UsesBefore(Declarations, k) + Declarations[k].chain
  }

  /** The index of the first route declared for this verb and path. */
  function RouteIndex(verb: Verb, path: string): (k: nat)
    ensures k <= |Declarations|
    ensures k < |Declarations| ==> Declarations[k].Route? && Declarations[k].verb == verb && Declarations[k].path == path
  {
    FindRoute(Declarations, verb, path, 0)
  }

  function FindRoute(decls: seq<Declaration>, verb: Verb, path: string, from: nat): (k: nat)
    requires from <= |decls|
    ensures from <= k <= |decls|
    ensures k < |decls| ==> decls[k].Route? && decls[k].verb == verb && decls[k].path == path
    decreases |decls| - from
  {
    if from == |decls| then from
    else if decls[from].Route? && decls[from].verb == verb && decls[from].path == path then from
    else FindRoute(decls, verb, path, from + 1)
  }

  /** The role the first role check in a chain requires, if there is one. */
  function RequiredRole(chain: seq<Middleware>): (r: Option<Role>)
    ensures r.Some? ==> RequireRole(r.value) in chain
    ensures r.None? ==> forall m :: m in chain ==> !m.RequireRole?
  {
    if chain == [] then None
    else if chain[0].RequireRole? then Some(chain[0].role)
    else RequiredRole(chain[1..])
  }

  /**
   * What the pipeline needs to know about a request: its Authorization
   * header and the verification oracle, its body, whether the member body
   * schema accepts it, and the stored list named in the path and the users.
   */
  datatype Incoming = Incoming(
    authorization: Option<string>,
    verify: string -> Verification,
    body: Json,
    memberBodyAccepted: bool,
    list: Option<ShoppingList>,
    users: seq<User>)

  /** The request reached the handler (with the caller's claims, once authenticated), or a middleware answered. */
  datatype Outcome = Reached(handler: Handler, caller: Option<Claims>) | Stopped(status: int, message: string) | Unhandled

  const InvalidInputMessage := "Invalid input data"

  /**
   * Whether a body schema accepts the body: an accepted body is the
   * encoding of a value that meets its schema. The add-item body is checked
   * with the item schema as written (`ItemSchema.Validate`), so its status
   * is SOLVED or USOLVED; the member body schema is not part of this model.
   */
  function Accepts(schema: Schema, body: Json, memberBodyAccepted: bool): (a: bool)
    ensures schema == MemberBody ==> a == memberBodyAccepted
    ensures a && schema == UserBody ==> exists u: UserSchema.RegisterBody ::
      UserSchema.Conforms(u) && (body == UserSchema.Encode(u) || body == UserSchema.EncodeWithoutFlag(u))
    ensures a && schema == ShoppingListBody ==> exists l: ShoppingListSchema.CreateListBody ::
      ValidListName(l.name) && body == ShoppingListSchema.Encode(l)
    ensures a && schema == ItemBody ==> exists i: ItemSchema.ItemBody ::
      ItemSchema.Conforms(ItemSchema.WrittenStatuses, i) && (body == ItemSchema.Encode(i) || body == ItemSchema.EncodeNameOnly(i))
    ensures a && schema == ItemStatusBody ==> exists s: ItemStatus :: body == ItemStatusSchema.Encode(s)
  {
    match schema
    case UserBody => UserSchema.Validate(body).Some?
    case ShoppingListBody => ShoppingListSchema.Validate(body).Some?
    case MemberBody => memberBodyAccepted
    case ItemBody => ItemSchema.Validate(body).Some?
    case ItemStatusBody => ItemStatusSchema.Validate(body).Some?
  }

  /** Conversely, every body that encodes a value meeting its schema is accepted. */
  lemma EncodingsAccepted(u: UserSchema.RegisterBody, l: ShoppingListSchema.CreateListBody,
                          i: ItemSchema.ItemBody, s: ItemStatus, memberBodyAccepted: bool)
    ensures UserSchema.Conforms(u) ==>
      Accepts(UserBody, UserSchema.Encode(u), memberBodyAccepted)
      && Accepts(UserBody, UserSchema.EncodeWithoutFlag(u), memberBodyAccepted)
    ensures ValidListName(l.name) ==> Accepts(ShoppingListBody, ShoppingListSchema.Encode(l), memberBodyAccepted)
    ensures ItemSchema.Conforms(ItemSchema.WrittenStatuses, i) ==>
      Accepts(ItemBody, ItemSchema.Encode(i), memberBodyAccepted)
      && Accepts(ItemBody, ItemSchema.EncodeNameOnly(i), memberBodyAccepted)
    ensures Accepts(ItemStatusBody, ItemStatusSchema.Encode(s), memberBodyAccepted)
  {
    if UserSchema.Conforms(u) {
      UserSchema.ValidateEncode(u);
    }
    if ValidListName(l.name) {
      ShoppingListSchema.ValidateEncode(l);
    }
    if ItemSchema.Conforms(ItemSchema.WrittenStatuses, i) {
      ItemSchema.ValidateWithEncode(ItemSchema.WrittenStatuses, ItemSchema.WrittenDefault, i);
    }
    ItemStatusSchema.ValidateEncode(s);
  }

  /**
   * The role the caller resolves to on the list in the path. Before
   * authentication there is no caller id, and the user lookup finds nobody.
   */
  function CallerRole(req: Incoming, caller: Option<Claims>): Result<Role, RoleError> {
    if caller.Some? then DetermineRole(caller.value.id, req.list, FindById(req.users, caller.value.id))
    else DetermineRole("", req.list, None)
  }

  /**
   * Runs the chain: the first middleware that answers stops the request;
   * a request that gets through every middleware reaches the handler.
   * Every answer is one of the statuses the middleware use.
   */
  function Run(chain: seq<Middleware>, req: Incoming, caller: Option<Claims>): (r: Outcome)
    ensures r.Stopped? ==> r.status in {400, 401, 403, 404, 500}
    ensures r.Reached? ==> Handle(r.handler) in chain
    ensures r.Reached? && RequireToken !in chain ==> r.caller == caller
    ensures r.Reached? ==>
      (r.caller == caller
       || (r.caller.Some? && Authenticate(req.authorization, req.verify) == Proceed(r.caller.value)))
  {
    if chain == [] then Unhandled
    else
      match chain[0]
      case Handle(h) => Reached(h, caller)
      case RequireToken =>
        (match Authenticate(req.authorization, req.verify)
         case Reject(status, message) => Stopped(status, message)
         case Proceed(claims) =>
           Run(chain[1..], req, Some(claims)))
      case ValidateBody(schema) =>
        if Accepts(schema, req.body, req.memberBodyAccepted) then Run(chain[1..], req, caller)
        else Stopped(400, InvalidInputMessage)
      case RequireRole(role) =>
        (match AuthorizeRole(role, CallerRole(req, caller))
         case Next => Run(chain[1..], req, caller)
         case Deny(status, message) => Stopped(status, message))
  }

  /**
   * The outcome for a request: the first route declared for this verb and
   * path runs its chain; with no such route the request is not handled.
   */
  function Dispatch(verb: Verb, path: string, req: Incoming): (r: Outcome)
    ensures RouteIndex(verb, path) == |Declarations| ==> r == Unhandled
    ensures r.Reached? ==>
      var k := RouteIndex(verb, path);
      k < |Declarations| && Declarations[k].verb == verb && Declarations[k].path == path
      && Handle(r.handler) in EffectiveChain(k)
    ensures r.Stopped? ==> r.status in {400, 401, 403, 404, 500}
  {
    var k := RouteIndex(verb, path);
    if k < |Declarations| then Run(EffectiveChain(k), req, None) else Unhandled
  }

  /** The middleware `use` mounts before each declaration: nothing before the gate, the gate after it. */
  lemma {:induction false} UsesBeforeTable(k: nat)
    requires k <= |Declarations|
    ensures k <= 2 ==> UsesBefore(Declarations, k) == []
    ensures k >= 3 ==> UsesBefore(Declarations, k) == [RequireToken]
  {
    if k > 0 {
      UsesBeforeTable(k - 1);
    }
  }

  /** Login and register are declared before the gate: they need no token. */
  lemma PublicRoutesNeedNoToken(req: Incoming)
    ensures Dispatch(Post, "/user/login", req) == Reached(Login, None)
    ensures Dispatch(Post, "/user/register", req) ==
      if UserSchema.Validate(req.body).Some? then Reached(Register, None) else Stopped(400, InvalidInputMessage)
  {
    UsesBeforeTable(0);
    UsesBeforeTable(1);
    assert RouteIndex(Post, "/user/login") == 0;
    assert RouteIndex(Post, "/user/register") == 1;
    var chain := EffectiveChain(1);
    assert chain == [ValidateBody(UserBody), Handle(Register)];
    assert chain[1..] == [Handle(Register)];
    assert Run(chain[1..], req, None) == Reached(Register, None);
  }

  /** Every shopping-list route runs the gate before anything else. */
  lemma ListRoutesStartWithGate(k: nat)
    requires k < |Declarations| && Declarations[k].Route? && "/shoppingList" <= Declarations[k].path
    ensures 3 <= k && EffectiveChain(k)[0] == RequireToken
  {
    assert !("/shoppingList" <= Declarations[0].path) by { assert Declarations[0].path[1] == 'u'; }
    assert !("/shoppingList" <= Declarations[1].path) by { assert Declarations[1].path[1] == 'u'; }
    GatedChain(k);
  }

  /** Every declaration after the gate's `use` runs the gate first. */
  lemma GatedChain(k: nat)
    requires 3 <= k < |Declarations|
    ensures Declarations[k].Route? && EffectiveChain(k) == [RequireToken] + Declarations[k].chain
  {
    UsesBeforeTable(k);
  }

  /**
   * A request to any shopping-list route that the gate rejects is answered
   * with the gate's 401, whatever its body, list or role; in particular a
   * missing token is reported as a missing header.
   */
  lemma RejectedTokenStopsEveryListRoute(k: nat, req: Incoming)
    requires k < |Declarations| && Declarations[k].Route? && "/shoppingList" <= Declarations[k].path
    requires Authenticate(req.authorization, req.verify).Reject?
    ensures Run(EffectiveChain(k), req, None) ==
      Stopped(401, Authenticate(req.authorization, req.verify).message)
    ensures TokenOf(req.authorization).None? ==>
      Run(EffectiveChain(k), req, None) == Stopped(401, MissingHeaderMessage)
  {
    ListRoutesStartWithGate(k);
    GatedChain(k);
    GateRejects([RequireToken] + Declarations[k].chain, req);
  }

  /** A chain that opens with the gate answers a rejected token with the gate's own answer. */
  lemma GateRejects(chain: seq<Middleware>, req: Incoming)
    requires chain != [] && chain[0] == RequireToken
    requires Authenticate(req.authorization, req.verify).Reject?
    ensures Run(chain, req, None) == Stopped(401, Authenticate(req.authorization, req.verify).message)
  {
  }

  /** The role each shopping-list route requires; creating and listing require none. */
  lemma RequiredRoleTable()
    ensures RequiredRole(Declarations[3].chain) == None && Declarations[3].verb == Post && Declarations[3].path == "/shoppingList"
    ensures RequiredRole(Declarations[4].chain) == None && Declarations[4].verb == Get && Declarations[4].path == "/shoppingList"
    ensures RequiredRole(Declarations[5].chain) == Some(Member) && Declarations[5].verb == Get
    ensures RequiredRole(Declarations[6].chain) == Some(Owner) && Declarations[6].verb == Delete
    ensures RequiredRole(Declarations[7].chain) == Some(Owner) && Declarations[7].verb == Post
    ensures RequiredRole(Declarations[8].chain) == Some(Member) && Declarations[8].verb == Delete
    ensures RequiredRole(Declarations[9].chain) == Some(Member) && Declarations[9].verb == Post
    ensures RequiredRole(Declarations[10].chain) == Some(Member) && Declarations[10].verb == Delete
    ensures RequiredRole(Declarations[11].chain) == Some(Member) && Declarations[11].verb == Patch
  {
  }

  /**
   * On the routes that add a member, add an item and update an item's
   * status, a body the schema rejects is answered 400 once the token
   * verifies, whatever the caller's role and whether or not the list exists.
   */
  lemma ValidationPrecedesRoleCheck(k: nat, req: Incoming)
    requires k == 7 || k == 9 || k == 11
    requires Authenticate(req.authorization, req.verify).Proceed?
    requires !Accepts(Declarations[k].chain[0].schema, req.body, req.memberBodyAccepted)
    ensures Run(EffectiveChain(k), req, None) == Stopped(400, InvalidInputMessage)
  {
    ValidatedRouteChain(k);
    var chain := Declarations[k].chain;
    var c := Authenticate(req.authorization, req.verify).claims;
    GateThenRejectedBody(chain, req, c);
  }

  /** A verified token followed by a rejected body: the answer is 400, whatever follows. */
  lemma GateThenRejectedBody(chain: seq<Middleware>, req: Incoming, c: Claims)
    requires Authenticate(req.authorization, req.verify) == Proceed(c)
    requires chain != [] && chain[0].ValidateBody?
    requires !Accepts(chain[0].schema, req.body, req.memberBodyAccepted)
    ensures Run([RequireToken] + chain, req, None) == Stopped(400, InvalidInputMessage)
  {
    PassGate(chain, req, c);
  }

  /** The three validated shopping-list routes: the gate, then validation first in their own chain. */
  lemma ValidatedRouteChain(k: nat)
    requires k == 7 || k == 9 || k == 11
    ensures Declarations[k].chain != [] && Declarations[k].chain[0].ValidateBody?
    ensures EffectiveChain(k) == [RequireToken] + Declarations[k].chain
  {
    GatedChain(k);
  }

  /** A request matched by route k runs route k's chain. */
  lemma DispatchAt(verb: Verb, path: string, k: nat, req: Incoming)
    requires k < |Declarations| && RouteIndex(verb, path) == k
    ensures Dispatch(verb, path, req) == Run(EffectiveChain(k), req, None)
  {
  }

  /** A verified token lets the rest of the chain run with the token's claims. */
  lemma PassGate(rest: seq<Middleware>, req: Incoming, c: Claims)
    requires Authenticate(req.authorization, req.verify) == Proceed(c)
    ensures Run([RequireToken] + rest, req, None) == Run(rest, req, Some(c))
  {
    assert ([RequireToken] + rest)[1..] == rest;
  }

  /** The list-delete route and its chain. */
  lemma DeleteRoute()
    ensures RouteIndex(Delete, "/shoppingList/:id") == 6
    ensures EffectiveChain(6) == [RequireToken, RequireRole(Owner), Handle(DeleteList)]
  {
    UsesBeforeTable(6);
  }

  /** Once the token verifies, the delete route's outcome is the owner gate's. */
  lemma DeleteOutcome(req: Incoming, c: Claims)
    requires Authenticate(req.authorization, req.verify) == Proceed(c)
    ensures Dispatch(Delete, "/shoppingList/:id", req) ==
      match AuthorizeRole(Owner, CallerRole(req, Some(c)))
      case Next => Reached(DeleteList, Some(c))
      case Deny(status, message) => Stopped(status, message)
  {
    DeleteRoute();
    DispatchAt(Delete, "/shoppingList/:id", 6, req);
    GateRoleHandleOutcome(Owner, DeleteList, req, c);
  }

  /** A chain of gate, role check and handler: once the token verifies, the role check decides. */
  lemma GateRoleHandleOutcome(role: Role, h: Handler, req: Incoming, c: Claims)
    requires Authenticate(req.authorization, req.verify) == Proceed(c)
    ensures Run([RequireToken, RequireRole(role), Handle(h)], req, None) ==
      match AuthorizeRole(role, CallerRole(req, Some(c)))
      case Next => Reached(h, Some(c))
      case Deny(status, message) => Stopped(status, message)
  {
    var rest := [RequireRole(role), Handle(h)];
    assert [RequireToken, RequireRole(role), Handle(h)] == [RequireToken] + rest;
    PassGate(rest, req, c);
    RoleThenHandle(role, h, req, Some(c));
  }

  /** A role gate in front of a handler: the handler is reached exactly when the gate admits. */
  lemma RoleThenHandle(role: Role, h: Handler, req: Incoming, caller: Option<Claims>)
    ensures Run([RequireRole(role), Handle(h)], req, caller) ==
      match AuthorizeRole(role, CallerRole(req, caller))
      case Next => Reached(h, caller)
      case Deny(status, message) => Stopped(status, message)
  {
    var chain := [RequireRole(role), Handle(h)];
    assert chain[1..] == [Handle(h)];
    assert Run(chain[1..], req, caller) == Reached(h, caller);
  }

  /** A verified token, then validation, a role check and a handler. */
  lemma ValidatedRoleHandle(schema: Schema, role: Role, h: Handler, req: Incoming, c: Claims)
    requires Authenticate(req.authorization, req.verify) == Proceed(c)
    ensures Run([RequireToken, ValidateBody(schema), RequireRole(role), Handle(h)], req, None) ==
      if !Accepts(schema, req.body, req.memberBodyAccepted) then Stopped(400, InvalidInputMessage)
      else match AuthorizeRole(role, CallerRole(req, Some(c)))
        case Next => Reached(h, Some(c))
        case Deny(status, message) => Stopped(status, message)
  {
    var rest := [ValidateBody(schema), RequireRole(role), Handle(h)];
    assert [RequireToken, ValidateBody(schema), RequireRole(role), Handle(h)] == [RequireToken] + rest;
    PassGate(rest, req, c);
    assert rest[1..] == [RequireRole(role), Handle(h)];
    RoleThenHandle(role, h, req, Some(c));
  }

  /**
   * The add-item route as declared: a member sending only a name reaches
   * the handler with the status filled in as "USOLVED", and a body naming
   * the record's own "UNSOLVED" is refused with 400.
   */
  lemma AddItemRouteAsWritten(req: Incoming, c: Claims)
    requires Authenticate(req.authorization, req.verify) == Proceed(c)
    requires AuthorizeRole(Member, CallerRole(req, Some(c))) == Next
    ensures req.body == JObject(map["name" := JString("Milk")]) ==>
      Dispatch(Post, "/shoppingList/:id/items/", req) == Reached(AddItem, Some(c))
      && ItemSchema.Validate(req.body) == Some(ItemSchema.ItemBody("Milk", "USOLVED"))
    ensures req.body == JObject(map["name" := JString("Milk"), "status" := JString("UNSOLVED")]) ==>
      Dispatch(Post, "/shoppingList/:id/items/", req) == Stopped(400, InvalidInputMessage)
  {
    AddItemRoute();
    DispatchAt(Post, "/shoppingList/:id/items/", 9, req);
    ValidatedRoleHandle(ItemBody, Member, AddItem, req, c);
    ItemSchema.WrittenDefaultLeavesRecordEnum();
  }

  /** The add-item route and its chain. */
  lemma AddItemRoute()
    ensures RouteIndex(Post, "/shoppingList/:id/items/") == 9
    ensures EffectiveChain(9) == [RequireToken, ValidateBody(ItemBody), RequireRole(Member), Handle(AddItem)]
  {
    var path := "/shoppingList/:id/items/";
    assert |path| == 24;
    assert FindRoute(Declarations, Post, path, 9) == 9;
    assert FindRoute(Declarations, Post, path, 7) == 9 by {
      assert Declarations[7].path != path by { assert |Declarations[7].path| != 24; }
    }
    assert FindRoute(Declarations, Post, path, 3) == 9 by {
      assert Declarations[3].path != path by { assert |Declarations[3].path| != 24; }
    }
    assert FindRoute(Declarations, Post, path, 0) == 9 by {
      assert Declarations[0].path != path by { assert |Declarations[0].path| != 24; }
      assert Declarations[1].path != path by { assert |Declarations[1].path| != 24; }
    }
    GatedChain(9);
  }

  /** An admin with a valid token is admitted to deleting any existing list, an owner-only route. */
  lemma OwnerRouteAdmitsAdmin(req: Incoming, c: Claims)
    requires Authenticate(req.authorization, req.verify) == Proceed(c)
    requires req.list.Some? && FindById(req.users, c.id).Some? && FindById(req.users, c.id).value.isAdmin
    ensures Dispatch(Delete, "/shoppingList/:id", req) == Reached(DeleteList, Some(c))
  {
    assert CallerRole(req, Some(c)) == Ok(Admin);
    AdminPassesEveryGate(Owner);
    DeleteOutcome(req, c);
  }

  /** A member with a valid token is refused deleting the list with the owner 403. */
  lemma DeleteRefusesMember(req: Incoming, c: Claims)
    requires Authenticate(req.authorization, req.verify) == Proceed(c)
    requires req.list.Some? && FindById(req.users, c.id).Some? && !FindById(req.users, c.id).value.isAdmin
    requires req.list.value.ownerUserId != c.id && c.id in req.list.value.members
    ensures Dispatch(Delete, "/shoppingList/:id", req) ==
      Stopped(403, "Forbidden: This action requires owner privileges.")
  {
    assert CallerRole(req, Some(c)) == Ok(Member);
    OwnerGateAdmits(c.id, req.list.value, FindById(req.users, c.id).value);
    ForbiddenMessages();
    DeleteOutcome(req, c);
  }
}
