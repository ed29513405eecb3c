/** The two middleware of the access-control chain as decisions: the token
    verifier and the admin check, and the chain that runs them in order
    before a handler. */
module Gate {
  import opened Wrappers
  import opened Collection
  import opened Documents
  import opened Header
  import opened Http

  /** `jwt.verify(token, secret)` with the configured secret: the claim the
      token decodes to, or `None` when the signature or expiry check fails.
      Cryptography and the clock are outside the model, so this is a
      parameter. */
  type Verifier = string -> Option<Claim>

  const MissingHeaderReply: Response := Response(UnauthorizedStatus, Message(ForbiddenAccess))
  const BadTokenReply: Response := Response(UnauthorizedStatus, Message(UnauthorizedAccess))
  const ForbiddenReply: Response := Response(ForbiddenStatus, Message(ForbiddenAccess))

  datatype Stage = VerifyTokenStage | AdminVerifyStage

  /** After a stage the request either has been answered (`Halt`) or goes on
      to the next stage (`Next`); `decoded` is `req.decoded` at that point. */
  datatype Step = Halt(response: Response, decoded: Option<Claim>) | Next(decoded: Option<Claim>)

  /** `req.headers.authorization` is truthy: present and not empty. */
  predicate HeaderPresent(authorization: Option<string>)
  {
    authorization.Some? && authorization.value != ""
  }

  /** The claim of the token in `header`; a header without a second piece
      passes `undefined` to the verifier, which always fails. */
  function TokenClaim(verify: Verifier, header: string): Option<Claim>
  {
    match BearerToken(header)
    case None => None
    case Some(token) => verify(token)
  }

  /** `verifyToken`. */
  function TokenGate(verify: Verifier, authorization: Option<string>, decoded: Option<Claim>): (step: Step)
    ensures step.Halt? ==> step.response.status == UnauthorizedStatus && step.decoded == decoded
    ensures step.Next? ==> step.decoded.Some?
  {
    if !HeaderPresent(authorization) then Halt(MissingHeaderReply, decoded)
    else match TokenClaim(verify, authorization.value)
      case None => Halt(BadTokenReply, decoded)
      case Some(claim) => Next(Some(claim))
  }

  /** `user?.role === 'admin'` for the result of `findOne`. */
  predicate IsAdminRecord(user: Option<Doc<User>>)
  {
    user.Some? && IsAdmin(user.value.fields)
  }

  /** `adminVerify`: it reads `req.decoded.email`, so a verified claim must
      already be attached. The request goes through exactly when the FIRST
      user with the claimed email is an admin; later users with the same
      email are never looked at. */
  function AdminGate(users: seq<Doc<User>>, decoded: Option<Claim>): (step: Step)
    requires decoded.Some?
    ensures step.decoded == decoded
    ensures step.Halt? ==> step.response == ForbiddenReply
    ensures step.Next? <==> exists i :: 0 <= i < |users| && decoded.value.email == Some(users[i].fields.email)
                                        && (forall j :: 0 <= j < i ==> decoded.value.email != Some(users[j].fields.email))
                                        && IsAdmin(users[i].fields)
  {
    if IsAdminRecord(FindOne(users, EmailIs(decoded.value.email))) then Next(decoded)
    else Halt(ForbiddenReply, decoded)
  }

  /** A chain can run: `adminVerify` never runs before a claim is attached. */
  predicate Ready(stages: seq<Stage>, decoded: Option<Claim>)
  {
    decoded.Some? || stages == [] || stages[0] == VerifyTokenStage
  }

  /** Run the stages in order; the first that answers ends the chain. */
  function RunChain(stages: seq<Stage>, verify: Verifier, users: seq<Doc<User>>,
                    authorization: Option<string>, decoded: Option<Claim>): (step: Step)
    requires Ready(stages, decoded)
    ensures step.Next? && stages != [] ==> step.decoded.Some?
    ensures step.Halt? ==> step.response.status in {UnauthorizedStatus, ForbiddenStatus}
    decreases |stages|
  {
    if stages == [] then Next(decoded)
    else
      var step := match stages[0]
        case VerifyTokenStage => TokenGate(verify, authorization, decoded)
        case AdminVerifyStage => AdminGate(users, decoded);
      match step
      case Halt(_, _) => step
      case Next(d) => RunChain(stages[1..], verify, users, authorization, d)
  }

  const AdminChain: seq<Stage> := [VerifyTokenStage, AdminVerifyStage]
  const TokenChain: seq<Stage> := [VerifyTokenStage]

  /** Without an authorization header a token-guarded chain answers 401
      "forbidden access" and runs nothing after the verifier. */
  lemma MissingHeaderStops(stages: seq<Stage>, verify: Verifier, users: seq<Doc<User>>,
                           authorization: Option<string>, decoded: Option<Claim>)
    requires stages != [] && stages[0] == VerifyTokenStage
    requires !HeaderPresent(authorization)
    ensures RunChain(stages, verify, users, authorization, decoded) == Halt(MissingHeaderReply, decoded)
  {
  }

  /** A present header whose token does not verify (or that has no token)
      answers 401 "unauthorized access" and runs nothing after the verifier. */
  lemma BadTokenStops(stages: seq<Stage>, verify: Verifier, users: seq<Doc<User>>,
                      authorization: Option<string>, decoded: Option<Claim>)
    requires stages != [] && stages[0] == VerifyTokenStage
    requires HeaderPresent(authorization) && TokenClaim(verify, authorization.value).None?
    ensures RunChain(stages, verify, users, authorization, decoded) == Halt(BadTokenReply, decoded)
  {
  }

  /** A token that verifies attaches its claim and hands over to exactly the
      next stage. */
  lemma GoodTokenContinues(stages: seq<Stage>, verify: Verifier, users: seq<Doc<User>>,
                           authorization: Option<string>, decoded: Option<Claim>, claim: Claim)
    requires stages != [] && stages[0] == VerifyTokenStage
    requires HeaderPresent(authorization) && TokenClaim(verify, authorization.value) == Some(claim)
    ensures RunChain(stages, verify, users, authorization, decoded)
         == RunChain(stages[1..], verify, users, authorization, Some(claim))
  {
  }

  /** The two 401 answers differ only in their message, and the verifier
      consults no collection: whenever the token stage answers, the answer is
      the same whatever the user collection holds, so a 401 always wins over
      the admin check's 403. */
  lemma UnauthorizedBeforeForbidden(stages: seq<Stage>, verify: Verifier,
                                    users1: seq<Doc<User>>, users2: seq<Doc<User>>,
                                    authorization: Option<string>, decoded: Option<Claim>)
    requires stages != [] && stages[0] == VerifyTokenStage
    requires TokenGate(verify, authorization, decoded).Halt?
    ensures RunChain(stages, verify, users1, authorization, decoded)
         == RunChain(stages, verify, users2, authorization, decoded)
    ensures RunChain(stages, verify, users1, authorization, decoded).response.status == UnauthorizedStatus
  {
  }

  /** `adminVerify` passes exactly when the first user the email filter finds
      is an admin; once emails are unique, exactly when some user with the
      claimed email has the admin role. A missing user or another role gives
      403 "forbidden access". */
  lemma AdminGateIff(users: seq<Doc<User>>, claim: Claim)
    requires UniqueEmails(users)
    ensures AdminGate(users, Some(claim)).Next? <==> HasAdmin(users, claim.email)
    ensures AdminGate(users, Some(claim)).Halt? ==> AdminGate(users, Some(claim)).response == ForbiddenReply
  {
    if HasAdmin(users, claim.email) {
      var k :| 0 <= k < |users| && claim.email == Some(users[k].fields.email) && IsAdmin(users[k].fields);
      FirstByEmailIsOnly(users, claim.email, k);
    }
  }

  /** The admin chain lets a request through exactly when its token verifies
      to a claim whose email belongs to an admin. */
  lemma AdminChainPasses(verify: Verifier, users: seq<Doc<User>>, authorization: Option<string>,
                         decoded: Option<Claim>)
    requires UniqueEmails(users)
    ensures RunChain(AdminChain, verify, users, authorization, decoded).Next?
        <==> HeaderPresent(authorization)
             && TokenClaim(verify, authorization.value).Some?
             && HasAdmin(users, TokenClaim(verify, authorization.value).value.email)
  {
    if HeaderPresent(authorization) && TokenClaim(verify, authorization.value).Some? {
      var claim := TokenClaim(verify, authorization.value).value;
      AdminGateIff(users, claim);
      assert AdminChain[1..] == [AdminVerifyStage];
    }
  }
}
