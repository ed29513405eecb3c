/** The routes of the server as functions of the collections and the request:
    which middleware chain guards each one, what its handler answers and how
    it changes the collections. */
module Routes {
  import opened Wrappers
  import opened Collection
  import opened Documents
  import opened Http
  import opened Gate

  datatype Collections = Collections(users: seq<Doc<User>>, menu: seq<Doc<MenuItem>>, carts: seq<Doc<CartItem>>)

  /** The body of `PATCH /menu/:id`. */
  datatype MenuPatch = MenuPatch(name: Json, price: Json, recipe: Json, image: Json, category: Json)

  /** A request to one route, with its path, query and body parameters. */
  datatype Route =
    | ListUsers                              // GET /users
    | AdminStatus(email: string)             // GET /users/admin/:email
    | Register(body: User, oid: string)      // POST /users; oid: the ObjectId the driver assigns
    | RemoveUser(id: string)                 // DELETE /users/:id
    | MakeAdmin(id: string)                  // PATCH /users/admin/:id
    | RemoveMenuItem(id: string)             // DELETE /menu/:id
    | ReadMenuItem(id: string)               // GET /menu/:id
    | EditMenuItem(id: string, patch: MenuPatch) // PATCH /menu/:id
    | CartOf(owner: Option<string>)          // GET /carts?email=
    | RemoveCartRow(id: string)              // DELETE /carts/:id

  /** The middleware each route is registered with. */
  function Chain(route: Route): (stages: seq<Stage>)
    ensures stages == [] || stages[0] == VerifyTokenStage
  {
    match route
    case ListUsers => AdminChain
    case RemoveUser(_) => AdminChain
    case MakeAdmin(_) => AdminChain
    case RemoveMenuItem(_) => AdminChain
    case AdminStatus(_) => TokenChain
    case _ => []
  }

  /** `GET /users/admin/:email`: only for one's own email; a user that does
      not exist is reported as not an admin. */
  function AdminStatusReply(users: seq<Doc<User>>, decoded: Option<Claim>, email: string): Response
  {
    if decoded.None? || decoded.value.email != Some(email) then ForbiddenReply
    else Send(AdminFlag(IsAdminRecord(FindOne(users, EmailIs(Some(email))))))
  }

  /** `POST /users`: look the email up, insert only when it is new. */
  function RegisterUser(users: seq<Doc<User>>, body: User, oid: string): (Response, seq<Doc<User>>)
  {
    if FindOne(users, EmailIs(Some(body.email))).Some? then
      (Send(InsertReply(Some(UserAlreadyExists), None)), users)
    else
      (Send(InsertReply(None, Some(ObjId(oid)))), users + [Doc(ObjId(oid), body)])
  }

  /** `deleteOne({_id: new ObjectId(id)})` and its reply. */
  function DeleteById<T>(docs: seq<Doc<T>>, hex: string): (Response, seq<Doc<T>>)
  {
    (Send(DeleteReply(DeletedCount(docs, HasId(ObjId(hex))))), DeleteOne(docs, HasId(ObjId(hex))))
  }

  /** The update `{$set: {role: 'admin'}}`. */
  function Promote(d: Doc<User>): Doc<User>
  {
    d.(fields := d.fields.(role := Some(AdminRole)))
  }

  /** `PATCH /users/admin/:id`. */
  function PromoteUser(users: seq<Doc<User>>, hex: string): (Response, seq<Doc<User>>)
  {
    var counts := UpdateCounts(users, HasId(ObjId(hex)), Promote);
    (Send(UpdateReply(counts.0, counts.1)), UpdateOne(users, HasId(ObjId(hex)), Promote))
  }

  /** The update `$set` of `PATCH /menu/:id`: every field from the body,
      except that `recipe` is taken from the body's `price`. */
  function SetMenuFields(patch: MenuPatch): Doc<MenuItem> -> Doc<MenuItem>
  {
    (d: Doc<MenuItem>) => d.(fields := MenuItem(patch.name, patch.price, patch.price, patch.image, patch.category))
  }

  /** `PATCH /menu/:id`, filtering on the raw path string. */
  function EditMenu(menu: seq<Doc<MenuItem>>, id: string, patch: MenuPatch): (Response, seq<Doc<MenuItem>>)
  {
    var counts := UpdateCounts(menu, HasId(StrId(id)), SetMenuFields(patch));
    (Send(UpdateReply(counts.0, counts.1)), UpdateOne(menu, HasId(StrId(id)), SetMenuFields(patch)))
  }

  /** `GET /menu/:id`, filtering on the raw path string. */
  function ReadMenu(menu: seq<Doc<MenuItem>>, id: string): Response
  {
    Send(MenuDoc(FindOne(menu, HasId(StrId(id)))))
  }

  /** `GET /carts?email=`. */
  function CartRows(carts: seq<Doc<CartItem>>, email: Option<string>): Response
  {
    Send(CartList(Find(carts, OwnerIs(email))))
  }

  /** The handler of each route, run once its chain has let the request
      through; each changes at most the collection it names. */
  function Handle(route: Route, st: Collections, decoded: Option<Claim>): (r: (Response, Collections))
    ensures !(route.Register? || route.RemoveUser? || route.MakeAdmin?) ==> r.1.users == st.users
    ensures !(route.RemoveMenuItem? || route.EditMenuItem?) ==> r.1.menu == st.menu
    ensures !route.RemoveCartRow? ==> r.1.carts == st.carts
    ensures r.0.status == OkStatus || r.0 == ForbiddenReply
  {
    match route
    case ListUsers => (Send(UserList(st.users)), st)
    case AdminStatus(email) => (AdminStatusReply(st.users, decoded, email), st)
    case Register(body, oid) =>
      var (resp, users) := RegisterUser(st.users, body, oid); (resp, st.(users := users))
    case RemoveUser(id) =>
      var (resp, users) := DeleteById(st.users, id); (resp, st.(users := users))
    case MakeAdmin(id) =>
      var (resp, users) := PromoteUser(st.users, id); (resp, st.(users := users))
    case RemoveMenuItem(id) =>
      var (resp, menu) := DeleteById(st.menu, id); (resp, st.(menu := menu))
    case ReadMenuItem(id) => (ReadMenu(st.menu, id), st)
    case EditMenuItem(id, patch) =>
      var (resp, menu) := EditMenu(st.menu, id, patch); (resp, st.(menu := menu))
    case CartOf(email) => (CartRows(st.carts, email), st)
    case RemoveCartRow(id) =>
      var (resp, carts) := DeleteById(st.carts, id); (resp, st.(carts := carts))
  }

  /** A request served end to end: the route's chain, then its handler. A
      request the chain answers touches no collection. */
  function Serve(verify: Verifier, route: Route, st: Collections,
                 authorization: Option<string>, decoded: Option<Claim>): (r: (Response, Collections))
    ensures RunChain(Chain(route), verify, st.users, authorization, decoded).Halt? ==> r.1 == st
  {
    match RunChain(Chain(route), verify, st.users, authorization, decoded)
    case Halt(resp, _) => (resp, st)
    case Next(d) => Handle(route, st, d)
  }

  // ---------------------------------------------------------------------
  // The access-control chain, route by route

  /** Every guarded route answers a request without an authorization header
      with 401 "forbidden access", before any collection is read or written. */
  lemma GuardedRouteWithoutHeader(verify: Verifier, route: Route, st: Collections,
                                  authorization: Option<string>, decoded: Option<Claim>)
    requires Chain(route) != [] && !HeaderPresent(authorization)
    ensures Serve(verify, route, st, authorization, decoded) == (MissingHeaderReply, st)
  {
    MissingHeaderStops(Chain(route), verify, st.users, authorization, decoded);
  }

  /** Every guarded route answers a header whose token does not verify with
      401 "unauthorized access", whoever the caller claims to be. */
  lemma GuardedRouteWithBadToken(verify: Verifier, route: Route, st: Collections,
                                 authorization: Option<string>, decoded: Option<Claim>)
    requires Chain(route) != [] && HeaderPresent(authorization)
    requires TokenClaim(verify, authorization.value).None?
    ensures Serve(verify, route, st, authorization, decoded) == (BadTokenReply, st)
  {
    BadTokenStops(Chain(route), verify, st.users, authorization, decoded);
  }

  /** On an admin route a verified caller is served when some user with the
      claimed email is an admin, and gets 403 with nothing changed otherwise. */
  lemma AdminRouteWithGoodToken(verify: Verifier, route: Route, st: Collections,
                                authorization: Option<string>, decoded: Option<Claim>, claim: Claim)
    requires Chain(route) == AdminChain && UniqueEmails(st.users)
    requires HeaderPresent(authorization) && TokenClaim(verify, authorization.value) == Some(claim)
    ensures Serve(verify, route, st, authorization, decoded)
         == if HasAdmin(st.users, claim.email) then Handle(route, st, Some(claim)) else (ForbiddenReply, st)
  {
    GoodTokenContinues(AdminChain, verify, st.users, authorization, decoded, claim);
    assert AdminChain[1..] == [AdminVerifyStage];
    AdminGateIff(st.users, claim);
  }

  /** The admin-status route needs a verified token only: its handler runs
      with the verified claim, whatever the user collection holds. */
  lemma TokenRouteWithGoodToken(verify: Verifier, email: string, st: Collections,
                                authorization: Option<string>, decoded: Option<Claim>, claim: Claim)
    requires HeaderPresent(authorization) && TokenClaim(verify, authorization.value) == Some(claim)
    ensures Serve(verify, AdminStatus(email), st, authorization, decoded)
         == (AdminStatusReply(st.users, Some(claim), email), st)
  {
    GoodTokenContinues(TokenChain, verify, st.users, authorization, decoded, claim);
  }

  /** Registration, the menu reads and edits and every cart route are open:
      their handler runs whatever the headers say. */
  lemma OpenRoute(verify: Verifier, route: Route, st: Collections,
                  authorization: Option<string>, decoded: Option<Claim>)
    requires Chain(route) == []
    ensures Serve(verify, route, st, authorization, decoded) == Handle(route, st, decoded)
  {
  }

  // ---------------------------------------------------------------------
  // Admin status

  /** Asking about another email (or with no email in the claim) is 403. */
  lemma AdminStatusOfOther(users: seq<Doc<User>>, claim: Claim, email: string)
    requires claim.email != Some(email)
    ensures AdminStatusReply(users, Some(claim), email) == ForbiddenReply
  {
  }

  /** Asking about one's own email answers whether some user with that email
      is an admin; an unknown email answers `{admin: false}`. */
  lemma {:induction false} AdminStatusOfSelf(users: seq<Doc<User>>, claim: Claim, email: string)
    requires claim.email == Some(email) && UniqueEmails(users)
    ensures AdminStatusReply(users, Some(claim), email) == Send(AdminFlag(HasAdmin(users, Some(email))))
    ensures (forall k :: 0 <= k < |users| ==> users[k].fields.email != email)
            ==> AdminStatusReply(users, Some(claim), email) == Send(AdminFlag(false))
  {
    AdminGateIff(users, claim);
  }

  // ---------------------------------------------------------------------
  // Registration

  /** A known email inserts nothing and answers `insertedId: null`; a new one
      appends exactly the submitted record under the new id. */
  lemma RegisterOutcome(users: seq<Doc<User>>, body: User, oid: string)
    ensures var (resp, after) := RegisterUser(users, body, oid);
      && resp.status == OkStatus
      && (resp.body.insertedId.None? <==> Any(users, EmailIs(Some(body.email))))
      && (Any(users, EmailIs(Some(body.email))) ==> after == users && resp.body.message == Some(UserAlreadyExists))
      && (!Any(users, EmailIs(Some(body.email))) ==> after == users + [Doc(ObjId(oid), body)])
  {
  }

  /** Registration keeps emails unique. */
  lemma RegisterKeepsEmailsUnique(users: seq<Doc<User>>, body: User, oid: string)
    requires UniqueEmails(users)
    ensures UniqueEmails(RegisterUser(users, body, oid).1)
  {
    if !Any(users, EmailIs(Some(body.email))) {
      forall j | 0 <= j < |users| ensures EmailOf(users[j]) != EmailOf(Doc(ObjId(oid), body)) {
        assert !EmailIs(Some(body.email))(users[j]);
      }
      DistinctAppend(users, EmailOf, Doc(ObjId(oid), body));
    }
  }

  /** Registering the same email twice in a row leaves exactly one user with
      that email, and the second call inserts nothing. */
  lemma {:induction false} RegisterTwice(users: seq<Doc<User>>, first: User, second: User, oid1: string, oid2: string)
    requires UniqueEmails(users) && first.email == second.email
    ensures var (_, once) := RegisterUser(users, first, oid1);
            var (resp, twice) := RegisterUser(once, second, oid2);
            && twice == once
            && resp.body == InsertReply(Some(UserAlreadyExists), None)
            && Count(twice, EmailIs(Some(first.email))) == 1
  {
    var p := EmailIs(Some(first.email));
    var once := RegisterUser(users, first, oid1).1;
    RegisterKeepsEmailsUnique(users, first, oid1);
    if Any(users, p) {
      CountZero(users, p);
      DistinctCount(users, EmailOf, first.email, p);
    } else {
      CountZero(users, p);
      CountAppend(users, Doc(ObjId(oid1), first), p);
      assert p(once[|users|]);
    }
  }

  /** The body is inserted as sent: a new user whose body carries
      `role: 'admin'` is an admin from then on. */
  lemma RegisterWithAdminRole(users: seq<Doc<User>>, body: User, oid: string)
    requires UniqueEmails(users) && IsAdmin(body)
    requires !Any(users, EmailIs(Some(body.email)))
    ensures AdminStatusReply(RegisterUser(users, body, oid).1, Some(Claim(Some(body.email))), body.email)
         == Send(AdminFlag(true))
  {
    var after := RegisterUser(users, body, oid).1;
    RegisterKeepsEmailsUnique(users, body, oid);
    AdminStatusOfSelf(after, Claim(Some(body.email)), body.email);
    assert after[|users|].fields == body;
  }

  // ---------------------------------------------------------------------
  // Promotion

  /** Promotion sets `role` to `'admin'` on the record with that id, keeps its
      id, email and other fields, and leaves every other record as it was. */
  lemma {:induction false} PromoteEffect(users: seq<Doc<User>>, hex: string, k: nat)
    requires UniqueIds(users) && k < |users| && users[k].id == ObjId(hex)
    ensures var (resp, after) := PromoteUser(users, hex);
      && |after| == |users|
      && after[k] == Doc(users[k].id, users[k].fields.(role := Some(AdminRole)))
      && (forall j :: 0 <= j < |users| && j != k ==> after[j] == users[j])
      && resp.body.matchedCount == 1
      && (resp.body.modifiedCount == 0 <==> IsAdmin(users[k].fields))
  {
    var p := HasId<User>(ObjId(hex));
    forall j | 0 <= j < |users| && j != k ensures !p(users[j]) {
      if j < k { assert IdOf(users[j]) != IdOf(users[k]); } else { assert IdOf(users[k]) != IdOf(users[j]); }
    }
    assert p(users[k]);
    assert FindIndex(users, p) == Some(k);
  }

  /** An unknown id matches nothing and changes nothing. */
  lemma PromoteUnknownId(users: seq<Doc<User>>, hex: string)
    requires FreshId(users, ObjId(hex))
    ensures PromoteUser(users, hex) == (Send(UpdateReply(0, 0)), users)
  {
    assert !Any(users, HasId<User>(ObjId(hex)));
  }

  /** Promotion keeps emails unique. */
  lemma PromoteKeepsEmailsUnique(users: seq<Doc<User>>, hex: string)
    requires UniqueEmails(users)
    ensures UniqueEmails(PromoteUser(users, hex).1)
  {
    DistinctUpdate(users, EmailOf, HasId(ObjId(hex)), Promote);
  }

  /** After promoting the user an id names, that user's own admin-status
      query answers `{admin: true}`. */
  lemma {:induction false} PromoteThenAdminStatus(users: seq<Doc<User>>, hex: string, k: nat)
    requires UniqueEmails(users) && UniqueIds(users)
    requires k < |users| && users[k].id == ObjId(hex)
    ensures var after := PromoteUser(users, hex).1;
            var email := users[k].fields.email;
            AdminStatusReply(after, Some(Claim(Some(email))), email) == Send(AdminFlag(true))
  {
    var after := PromoteUser(users, hex).1;
    var email := users[k].fields.email;
    PromoteEffect(users, hex, k);
    PromoteKeepsEmailsUnique(users, hex);
    AdminStatusOfSelf(after, Claim(Some(email)), email);
    assert IsAdmin(after[k].fields) && after[k].fields.email == email;
  }

  // ---------------------------------------------------------------------
  // Deletion by id

  /** `deleteOne` by ObjectId removes at most one record, only one with that
      id, and keeps every other record; an id nothing has changes nothing and
      still succeeds with `deletedCount: 0`. */
  lemma DeleteByIdEffect<T>(docs: seq<Doc<T>>, hex: string)
    ensures var (resp, after) := DeleteById(docs, hex);
      && resp.status == OkStatus
      && (forall j :: 0 <= j < |after| ==> after[j] in docs)
      && (forall j :: 0 <= j < |docs| && docs[j].id != ObjId(hex) ==> docs[j] in after)
      && (FreshId(docs, ObjId(hex)) ==> after == docs && resp.body == DeleteReply(0))
      && (!FreshId(docs, ObjId(hex)) ==> |after| == |docs| - 1 && resp.body == DeleteReply(1))
  {
    var p := HasId<T>(ObjId(hex));
    if !FreshId(docs, ObjId(hex)) {
      var j :| 0 <= j < |docs| && docs[j].id == ObjId(hex);
      assert p(docs[j]);
    }
  }

  /** With unique ids the record is gone afterwards. */
  lemma {:induction false} DeleteByIdRemovesIt<T>(docs: seq<Doc<T>>, hex: string)
    requires UniqueIds(docs)
    ensures FreshId(DeleteById(docs, hex).1, ObjId(hex))
    ensures UniqueIds(DeleteById(docs, hex).1)
  {
    var p := HasId<T>(ObjId(hex));
    DistinctDelete(docs, IdOf, p);
    match FindIndex(docs, p)
    case None =>
    case Some(i) =>
      var after := DeleteOne(docs, p);
      assert after == docs[..i] + docs[i+1..];
      forall j | 0 <= j < |after| ensures after[j].id != ObjId(hex) {
        var j' := if j < i then j else j + 1;
        assert after[j] == docs[j'];
        if j' < i { assert IdOf(docs[j']) != IdOf(docs[i]); } else { assert IdOf(docs[i]) != IdOf(docs[j']); }
      }
  }

  // ---------------------------------------------------------------------
  // Menu and carts

  /** `PATCH /menu/:id` overwrites the matched item's fields from the body and
      stores the body's `price` as its `recipe`; the body's `recipe` is not
      used. */
  lemma {:induction false} EditMenuStoresPriceAsRecipe(menu: seq<Doc<MenuItem>>, id: string, patch: MenuPatch, k: nat)
    requires UniqueIds(menu) && k < |menu| && menu[k].id == StrId(id)
    ensures var after := EditMenu(menu, id, patch).1;
      && |after| == |menu|
      && after[k] == Doc(StrId(id), MenuItem(patch.name, patch.price, patch.price, patch.image, patch.category))
      && after[k].fields.recipe == patch.price
      && (forall j :: 0 <= j < |menu| && j != k ==> after[j] == menu[j])
  {
    var p := HasId<MenuItem>(StrId(id));
    forall j | 0 <= j < |menu| && j != k ensures !p(menu[j]) {
      if j < k { assert IdOf(menu[j]) != IdOf(menu[k]); } else { assert IdOf(menu[k]) != IdOf(menu[j]); }
    }
    assert p(menu[k]);
    assert FindIndex(menu, p) == Some(k);
  }

  /** The menu read and edit filter on the raw string while the delete
      filters on an ObjectId: an item stored under `ObjectId(id)` is neither
      found nor edited by the path `id`, but is deleted by it. */
  lemma {:induction false} MenuIdKindsDiffer(menu: seq<Doc<MenuItem>>, id: string, patch: MenuPatch, k: nat)
    requires UniqueIds(menu) && k < |menu| && menu[k].id == ObjId(id)
    ensures ReadMenu(menu, id).body.item != Some(menu[k])
    ensures EditMenu(menu, id, patch).1[k] == menu[k]
    ensures FreshId(DeleteById(menu, id).1, ObjId(id))
    ensures |DeleteById(menu, id).1| == |menu| - 1
  {
    assert !HasId<MenuItem>(StrId(id))(menu[k]);
    DeleteByIdRemovesIt(menu, id);
    DeleteByIdEffect(menu, id);
  }

  /** `GET /carts?email=` answers exactly the rows whose email equals the
      query's, as many as there are; a query without an email answers the rows
      that have none, and a query no row carries answers nothing. */
  lemma CartRowsOfOwner(carts: seq<Doc<CartItem>>, email: Option<string>)
    ensures var rows := CartRows(carts, email).body.rows;
      && (forall j :: 0 <= j < |rows| ==> rows[j] in carts && rows[j].fields.email == email)
      && (forall k :: 0 <= k < |carts| && carts[k].fields.email == email ==> carts[k] in rows)
      && |rows| == Count(carts, OwnerIs(email))
      && ((forall k :: 0 <= k < |carts| ==> carts[k].fields.email != email) ==> rows == [])
  {
    if forall k :: 0 <= k < |carts| ==> carts[k].fields.email != email {
      FindNothing(carts, OwnerIs(email));
    }
  }

  // ---------------------------------------------------------------------
  // Invariants of the whole server

  /** No request, on any route, makes two users share an email. */
  lemma ServeKeepsEmailsUnique(verify: Verifier, route: Route, st: Collections,
                               authorization: Option<string>, decoded: Option<Claim>)
    requires UniqueEmails(st.users)
    ensures UniqueEmails(Serve(verify, route, st, authorization, decoded).1.users)
  {
    match route
    case Register(body, oid) => RegisterKeepsEmailsUnique(st.users, body, oid);
    case RemoveUser(id) => DistinctDelete(st.users, EmailOf, HasId(ObjId(id)));
    case MakeAdmin(id) => PromoteKeepsEmailsUnique(st.users, id);
    case _ =>
  }

  /** No request makes two documents of a collection share an id, given that
      the id the driver assigns on registration is new. */
  lemma ServeKeepsIdsUnique(verify: Verifier, route: Route, st: Collections,
                            authorization: Option<string>, decoded: Option<Claim>)
    requires UniqueIds(st.users) && UniqueIds(st.menu) && UniqueIds(st.carts)
    requires route.Register? ==> FreshId(st.users, ObjId(route.oid))
    ensures var after := Serve(verify, route, st, authorization, decoded).1;
            UniqueIds(after.users) && UniqueIds(after.menu) && UniqueIds(after.carts)
  {
    match route
    case Register(body, oid) =>
      DistinctAppend(st.users, IdOf, Doc(ObjId(oid), body));
    case RemoveUser(id) => DeleteByIdRemovesIt(st.users, id);
    case MakeAdmin(id) => DistinctUpdate(st.users, IdOf, HasId(ObjId(id)), Promote);
    case RemoveMenuItem(id) => DeleteByIdRemovesIt(st.menu, id);
    case EditMenuItem(id, patch) => DistinctUpdate(st.menu, IdOf, HasId(StrId(id)), SetMenuFields(patch));
    case RemoveCartRow(id) => DeleteByIdRemovesIt(st.carts, id);
    case _ =>
  }
}
