/** What a route sends back: a status and a JSON body. */
module Http {
  import opened Wrappers
  import opened Documents

  datatype Body =
    | Message(text: string)                                     // {message}
    | AdminFlag(admin: bool)                                    // {admin}
    | UserList(users: seq<Doc<User>>)                           // find().toArray()
    | InsertReply(message: Option<string>, insertedId: Option<Id>)
    | DeleteReply(deletedCount: nat)
    | UpdateReply(matchedCount: nat, modifiedCount: nat)
    | MenuDoc(item: Option<Doc<MenuItem>>)                      // findOne, or null
    | CartList(rows: seq<Doc<CartItem>>)

  datatype Response = Response(status: nat, body: Body)

  const OkStatus: nat := 200
  const UnauthorizedStatus: nat := 401
  const ForbiddenStatus: nat := 403

  const ForbiddenAccess: string := "forbidden access"
  const UnauthorizedAccess: string := "unauthorized access"
  const UserAlreadyExists: string := "User already exists"

  /** `res.send(body)`, which answers with the default status. */
  function Send(body: Body): Response
  {
    Response(OkStatus, body)
  }
}
