/** The server as it runs: the request object the middleware write to, the
    database whose collections the handlers change in place, and one method
    per middleware and per route, each proved against the functions of `Gate`
    and `Routes`. */
module Server {
  import opened Wrappers
  import opened Collection
  import opened Documents
  import opened Header
  import opened Http
  import Gate
  import Routes

  /** The part of an incoming request the chain reads and writes. */
  class Request {
    const authorization: Option<string>
    var decoded: Option<Claim>

    constructor (authorization: Option<string>)
      ensures this.authorization == authorization && decoded == None
    {
      this.authorization := authorization;
      decoded := None;
    }
  }

  /** The three collections of the `bistro_boss` database the routes change,
      each in natural order. */
  class Database {
    var users: seq<Doc<User>>
    var menu: seq<Doc<MenuItem>>
    var carts: seq<Doc<CartItem>>

    /** `_id` is unique in every collection. */
    ghost predicate Valid()
      reads this
    {
      UniqueIds(users) && UniqueIds(menu) && UniqueIds(carts)
    }

    function State(): Routes.Collections
      reads this
    {
      Routes.Collections(users, menu, carts)
    }

    constructor (users: seq<Doc<User>>, menu: seq<Doc<MenuItem>>, carts: seq<Doc<CartItem>>)
      requires UniqueIds(users) && UniqueIds(menu) && UniqueIds(carts)
      ensures Valid() && State() == Routes.Collections(users, menu, carts)
    {
      this.users := users;
      this.menu := menu;
      this.carts := carts;
    }

    /** `userCollection.findOne({email})`. */
    method FindUser(email: Option<string>) returns (user: Option<Doc<User>>)
      ensures user.Some? <==> Any(users, EmailIs(email))
      ensures user.Some? ==> user.value in users && email == Some(user.value.fields.email)
      ensures user == FindOne(users, EmailIs(email))
    {
      user := FindOne(users, EmailIs(email));
    }

    /** `userCollection.insertOne(doc)` under a new `_id`. */
    method InsertUser(doc: Doc<User>)
      requires Valid() && FreshId(users, doc.id)
      modifies this
      ensures Valid()
      ensures users == old(users) + [doc] && menu == old(menu) && carts == old(carts)
    {
      DistinctAppend(users, IdOf, doc);
      users := users + [doc];
    }

    /** `userCollection.updateOne({_id: id}, {$set: {role: 'admin'}})`. */
    method PromoteUser(id: Id) returns (matched: nat, modified: nat)
      requires Valid()
      modifies this
      ensures Valid()
      ensures users == UpdateOne(old(users), HasId(id), Routes.Promote)
      ensures (matched, modified) == UpdateCounts(old(users), HasId(id), Routes.Promote)
      ensures menu == old(menu) && carts == old(carts)
    {
      var counts := UpdateCounts(users, HasId(id), Routes.Promote);
      matched, modified := counts.0, counts.1;
      DistinctUpdate(users, IdOf, HasId(id), Routes.Promote);
      users := UpdateOne(users, HasId(id), Routes.Promote);
    }

    /** `userCollection.deleteOne({_id: new ObjectId(hex)})`; the id is gone afterwards. */
    method DeleteUser(hex: string) returns (deleted: nat)
      requires Valid()
      modifies this
      ensures Valid()
      ensures users == DeleteOne(old(users), HasId(ObjId(hex))) && deleted == DeletedCount(old(users), HasId(ObjId(hex)))
      ensures FreshId(users, ObjId(hex))
      ensures menu == old(menu) && carts == old(carts)
    {
      deleted := DeletedCount(users, HasId(ObjId(hex)));
      Routes.DeleteByIdRemovesIt(users, hex);
      users := DeleteOne(users, HasId(ObjId(hex)));
    }

    /** `menuCollection.findOne({_id: id})`. */
    method FindMenuItem(id: Id) returns (item: Option<Doc<MenuItem>>)
      ensures item.Some? <==> Any(menu, HasId(id))
      ensures item.Some? ==> item.value in menu && item.value.id == id
      ensures item == FindOne(menu, HasId(id))
    {
      item := FindOne(menu, HasId(id));
    }

    /** `menuCollection.updateOne({_id: id}, {$set: …})`. */
    method UpdateMenuItem(id: Id, update: Doc<MenuItem> -> Doc<MenuItem>) returns (matched: nat, modified: nat)
      requires Valid()
      requires forall d :: update(d).id == d.id
      modifies this
      ensures Valid()
      ensures menu == UpdateOne(old(menu), HasId(id), update)
      ensures (matched, modified) == UpdateCounts(old(menu), HasId(id), update)
      ensures users == old(users) && carts == old(carts)
    {
      var counts := UpdateCounts(menu, HasId(id), update);
      matched, modified := counts.0, counts.1;
      DistinctUpdate(menu, IdOf, HasId(id), update);
      menu := UpdateOne(menu, HasId(id), update);
    }

    /** `menuCollection.deleteOne({_id: new ObjectId(hex)})`; the id is gone afterwards. */
    method DeleteMenuItem(hex: string) returns (deleted: nat)
      requires Valid()
      modifies this
      ensures Valid()
      ensures menu == DeleteOne(old(menu), HasId(ObjId(hex))) && deleted == DeletedCount(old(menu), HasId(ObjId(hex)))
      ensures FreshId(menu, ObjId(hex))
      ensures users == old(users) && carts == old(carts)
    {
      deleted := DeletedCount(menu, HasId(ObjId(hex)));
      Routes.DeleteByIdRemovesIt(menu, hex);
      menu := DeleteOne(menu, HasId(ObjId(hex)));
    }

    /** `cartsCollection.find({email}).toArray()`. */
    method FindCarts(email: Option<string>) returns (rows: seq<Doc<CartItem>>)
      ensures forall j :: 0 <= j < |rows| ==> rows[j] in carts && rows[j].fields.email == email
      ensures forall k :: 0 <= k < |carts| && carts[k].fields.email == email ==> carts[k] in rows
      ensures rows == Find(carts, OwnerIs(email))
    {
      rows := Find(carts, OwnerIs(email));
    }

    /** `cartsCollection.deleteOne({_id: new ObjectId(hex)})`; the id is gone afterwards. */
    method DeleteCart(hex: string) returns (deleted: nat)
      requires Valid()
      modifies this
      ensures Valid()
      ensures carts == DeleteOne(old(carts), HasId(ObjId(hex))) && deleted == DeletedCount(old(carts), HasId(ObjId(hex)))
      ensures FreshId(carts, ObjId(hex))
      ensures users == old(users) && menu == old(menu)
    {
      deleted := DeletedCount(carts, HasId(ObjId(hex)));
      Routes.DeleteByIdRemovesIt(carts, hex);
      carts := DeleteOne(carts, HasId(ObjId(hex)));
    }
  }

  /** The response a step sends, if it sends one. */
  function Answer(step: Gate.Step): Option<Response>
  {
    if step.Halt? then Some(step.response) else None
  }

  /** The `verifyToken` middleware: answers 401, or attaches the verified
      claim to the request and lets it through. */
  method VerifyToken(verify: Gate.Verifier, req: Request) returns (halt: Option<Response>)
    modifies req
    ensures var step := Gate.TokenGate(verify, req.authorization, old(req.decoded));
            halt == Answer(step) && req.decoded == step.decoded
  {
    if !Gate.HeaderPresent(req.authorization) {
      return Some(Gate.MissingHeaderReply);
    }
    var token := BearerToken(req.authorization.value);
    var claim := if token.Some? then verify(token.value) else None;
    assert claim == Gate.TokenClaim(verify, req.authorization.value);
    if claim.None? {
      return Some(Gate.BadTokenReply);
    }
    req.decoded := claim;
    halt := None;
  }

  /** The `adminVerify` middleware: answers 403 unless the user with the
      decoded email is an admin. */
  method AdminVerify(db: Database, req: Request) returns (halt: Option<Response>)
    requires req.decoded.Some?
    ensures halt.None? <==> Gate.IsAdminRecord(FindOne(db.users, EmailIs(req.decoded.value.email)))
    ensures halt.Some? ==> halt.value == Gate.ForbiddenReply
    ensures halt == Answer(Gate.AdminGate(db.users, req.decoded))
  {
    var user := db.FindUser(req.decoded.value.email);
    var isAdmin := user.Some? && IsAdmin(user.value.fields);
    if !isAdmin {
      return Some(Gate.ForbiddenReply);
    }
    halt := None;
  }

  /** Express's `next()`: run the remaining middleware of a route in order,
      stopping at the first that answers. */
  method Pass(db: Database, verify: Gate.Verifier, stages: seq<Gate.Stage>, req: Request)
    returns (halt: Option<Response>)
    requires Gate.Ready(stages, req.decoded)
    modifies req
    ensures var step := Gate.RunChain(stages, verify, db.users, req.authorization, old(req.decoded));
            halt == Answer(step) && req.decoded == step.decoded
    decreases |stages|
  {
    if stages == [] {
      return None;
    }
    match stages[0] {
      case VerifyTokenStage => halt := VerifyToken(verify, req);
      case AdminVerifyStage => halt := AdminVerify(db, req);
    }
    if halt.None? {
      halt := Pass(db, verify, stages[1..], req);
    }
  }

  /** `GET /users/admin/:email`. */
  method GetAdminStatus(db: Database, req: Request, email: string) returns (resp: Response)
    ensures resp == Routes.AdminStatusReply(db.users, req.decoded, email)
    ensures resp.status == OkStatus || resp == Gate.ForbiddenReply
  {
    if req.decoded.None? || req.decoded.value.email != Some(email) {
      return Gate.ForbiddenReply;
    }
    var user := db.FindUser(Some(email));
    var admin := false;
    if user.Some? {
      admin := IsAdmin(user.value.fields);
    }
    resp := Send(AdminFlag(admin));
  }

  /** `POST /users`. */
  method PostUsers(db: Database, body: User, oid: string) returns (resp: Response)
    requires db.Valid() && FreshId(db.users, ObjId(oid))
    modifies db
    ensures db.Valid()
    ensures (resp, db.users) == Routes.RegisterUser(old(db.users), body, oid)
    ensures db.menu == old(db.menu) && db.carts == old(db.carts)
  {
    var existing := db.FindUser(Some(body.email));
    if existing.Some? {
      return Send(InsertReply(Some(UserAlreadyExists), None));
    }
    db.InsertUser(Doc(ObjId(oid), body));
    resp := Send(InsertReply(None, Some(ObjId(oid))));
  }

  /** `GET /menu/:id`. */
  method GetMenuItem(db: Database, id: string) returns (resp: Response)
    ensures resp == Routes.ReadMenu(db.menu, id)
    ensures resp.body.item.Some? ==> resp.body.item.value.id == StrId(id)
  {
    var item := db.FindMenuItem(StrId(id));
    resp := Send(MenuDoc(item));
  }

  /** `GET /carts?email=`. */
  method GetCarts(db: Database, email: Option<string>) returns (resp: Response)
    ensures resp == Routes.CartRows(db.carts, email)
    ensures forall j :: 0 <= j < |resp.body.rows| ==> resp.body.rows[j].fields.email == email
  {
    var rows := db.FindCarts(email);
    resp := Send(CartList(rows));
  }

  /** The handler of a route that its chain let through. */
  method Handle(db: Database, route: Routes.Route, req: Request) returns (resp: Response)
    requires db.Valid()
    requires route.Register? ==> FreshId(db.users, ObjId(route.oid))
    modifies db
    ensures db.Valid()
    ensures (resp, db.State()) == Routes.Handle(route, old(db.State()), req.decoded)
  {
    match route
    case ListUsers =>
      resp := Send(UserList(db.users));
    case AdminStatus(email) =>
      resp := GetAdminStatus(db, req, email);
    case Register(body, oid) =>
      resp := PostUsers(db, body, oid);
    case RemoveUser(id) =>
      var n := db.DeleteUser(id);
      resp := Send(DeleteReply(n));
    case MakeAdmin(id) =>
      var matched, modified := db.PromoteUser(ObjId(id));
      resp := Send(UpdateReply(matched, modified));
    case RemoveMenuItem(id) =>
      var n := db.DeleteMenuItem(id);
      resp := Send(DeleteReply(n));
    case ReadMenuItem(id) =>
      resp := GetMenuItem(db, id);
    case EditMenuItem(id, patch) =>
      var matched, modified := db.UpdateMenuItem(StrId(id), Routes.SetMenuFields(patch));
      resp := Send(UpdateReply(matched, modified));
    case CartOf(email) =>
      resp := GetCarts(db, email);
    case RemoveCartRow(id) =>
      var n := db.DeleteCart(id);
      resp := Send(DeleteReply(n));
  }

  /** One request, end to end: the route's middleware, then its handler. */
  method Dispatch(db: Database, verify: Gate.Verifier, route: Routes.Route, req: Request)
    returns (resp: Response)
    requires db.Valid()
    requires route.Register? ==> FreshId(db.users, ObjId(route.oid))
    modifies db, req
    ensures db.Valid()
    ensures (resp, db.State()) == Routes.Serve(verify, route, old(db.State()), req.authorization, old(req.decoded))
    ensures req.decoded == Gate.RunChain(Routes.Chain(route), verify, old(db.users), req.authorization, old(req.decoded)).decoded
    ensures UniqueEmails(old(db.users)) ==> UniqueEmails(db.users)
  {
    if UniqueEmails(db.users) {
      Routes.ServeKeepsEmailsUnique(verify, route, db.State(), req.authorization, req.decoded);
    }
    var halt := Pass(db, verify, Routes.Chain(route), req);
    if halt.Some? {
      return halt.value;
    }
    resp := Handle(db, route, req);
  }
}
