/** The documents of the four collections the server keeps (`user`, `menu`,
    `carts`; `reviews` is only listed and is not modelled), their identifiers,
    and the identity claim a token carries. */
module Documents {
  import opened Wrappers
  import opened Collection

  /** A JSON value taken from a request body. An absent body field is stored
      as null by the driver, so `undefined` is `JNull` here. */
  datatype Json = JNull | JBool(b: bool) | JNum(n: real) | JStr(s: string)

  /** A document identifier. Some routes filter on the raw path string
      (`{_id: id}`), others on `new ObjectId(id)`; the two kinds never compare
      equal, so the tag is part of the identifier. */
  datatype Id = StrId(s: string) | ObjId(hex: string)

  /** A stored document: its `_id` and the rest of its fields. */
  datatype Doc<T> = Doc(id: Id, fields: T)

  /** A user record. `role` is whatever the registration body carried, and
      becomes `"admin"` on promotion; `profile` holds every other field. */
  datatype User = User(email: string, role: Option<Json>, profile: map<string, Json>)

  datatype MenuItem = MenuItem(name: Json, price: Json, recipe: Json, image: Json, category: Json)

  /** A cart row. `POST /carts` stores its body as sent, so a row may have
      no `email` (or a null one): `None`. */
  datatype CartItem = CartItem(email: Option<string>, item: map<string, Json>)

  /** The payload a verified token decodes to. Only `email` is read; it is
      `None` when the signed payload had no string `email`. */
  datatype Claim = Claim(email: Option<string>)

  const AdminRole: Json := JStr("admin")

  /** `user.role === 'admin'`: the sole admin predicate. */
  predicate IsAdmin(u: User)
  {
    u.role == Some(AdminRole)
  }

  function IdOf<T>(d: Doc<T>): Id
  {
    d.id
  }

  function EmailOf(d: Doc<User>): string
  {
    d.fields.email
  }

  /** The filter `{_id: id}`. */
  function HasId<T>(id: Id): Doc<T> -> bool
  {
    (d: Doc<T>) => d.id == id
  }

  /** The filter `{email: email}` on users. An `undefined` email (`None`)
      matches no user, since every stored user has a string email. */
  function EmailIs(email: Option<string>): Doc<User> -> bool
  {
    (d: Doc<User>) => email == Some(d.fields.email)
  }

  /** The filter `{email: email}` on cart rows. An `undefined` email is sent
      as null, and `{email: null}` matches the rows that have no email. */
  function OwnerIs(email: Option<string>): Doc<CartItem> -> bool
  {
    (d: Doc<CartItem>) => d.fields.email == email
  }

  /** `_id` is unique within a collection: the store enforces this. */
  ghost predicate UniqueIds<T>(s: seq<Doc<T>>)
  {
    Distinct(s, IdOf)
  }

  /** No two users share an email. The store does not enforce this; the
      registration route's check-then-insert keeps it under sequential calls. */
  ghost predicate UniqueEmails(s: seq<Doc<User>>)
  {
    Distinct(s, EmailOf)
  }

  predicate FreshId<T>(s: seq<Doc<T>>, id: Id)
  {
    forall j :: 0 <= j < |s| ==> s[j].id != id
  }

  /** Some user with this email has the admin role. */
  ghost predicate HasAdmin(users: seq<Doc<User>>, email: Option<string>)
  {
    exists k :: 0 <= k < |users| && email == Some(users[k].fields.email) && IsAdmin(users[k].fields)
  }

  /** With unique emails, the first user a filter on `email` finds is the
      only one with that email. */
  lemma {:induction false} FirstByEmailIsOnly(users: seq<Doc<User>>, email: Option<string>, k: nat)
    requires UniqueEmails(users)
    requires k < |users| && email == Some(users[k].fields.email)
    ensures FindOne(users, EmailIs(email)) == Some(users[k])
  {
    forall j | 0 <= j < k ensures !EmailIs(email)(users[j]) {
      assert EmailOf(users[j]) != EmailOf(users[k]);
    }
    assert EmailIs(email)(users[k]);
  }
}
