/**
  The authentication middleware: a request without an Authorization header
  is answered 403; a header the decoder cannot turn into a payload is
  answered 400; otherwise the key and role claims become `req.user` and the
  request moves on. `decode` stands for the service's `decodeToken`.
 */
module Authentication {
  import opened JsValues
  import opened Requests
  import opened AuthService

  function Authenticate(header: JsValue, decode: JsValue -> Decoded): (g: Gate)
    ensures !Truthy(header) ==> g == Reject(403, "Unathorized")
    ensures Truthy(header) && (decode(header).Threw? || IsNullish(decode(header).claims)) ==>
              g == Reject(400, "Invalid Token")
    ensures g.Next? <==> Truthy(header) && decode(header).Payload? && !IsNullish(decode(header).claims)
    ensures g.Next? ==> g.user == Identity(Prop(decode(header).claims, "pkey"), Prop(decode(header).claims, "role"))
  {
    if !Truthy(header) then Reject(403, "Unathorized")
    else match decode(header)
      // reading a claim of a null or undefined payload throws, and the catch answers 400
      case Threw => Reject(400, "Invalid Token")
      case Payload(p) =>
        if IsNullish(p) then Reject(400, "Invalid Token")
        else Next(Identity(Prop(p, "pkey"), Prop(p, "role")))
  }

  /** Without a header the decoder plays no part: any two decoders give the same answer. */
  lemma NoHeaderIgnoresDecoder(header: JsValue, d1: JsValue -> Decoded, d2: JsValue -> Decoded)
    requires !Truthy(header)
    ensures Authenticate(header, d1) == Authenticate(header, d2)
  {
  }

  /** Only the key and role claims matter: payloads that agree on them authenticate alike. */
  lemma OtherClaimsDropped(header: JsValue, d1: JsValue -> Decoded, d2: JsValue -> Decoded)
    requires Truthy(header)
    requires d1(header).Payload? && d2(header).Payload?
    requires !IsNullish(d1(header).claims) && !IsNullish(d2(header).claims)
    requires Prop(d1(header).claims, "pkey") == Prop(d2(header).claims, "pkey")
    requires Prop(d1(header).claims, "role") == Prop(d2(header).claims, "role")
    ensures Authenticate(header, d1) == Authenticate(header, d2)
  {
  }
}

/**
  The authorization middleware: `authorization(roles)` lets a request on
  only when it carries a user whose role is one of `roles`, and answers 403
  otherwise.
 */
module Authorization {
  import opened JsValues
  import opened Options
  import opened Requests

  /** `roles.includes(req.user.role)`: a list of strings holds only string roles. */
  predicate Allowed(roles: seq<string>, role: JsValue)
  {
    role.Str? && role.s in roles
  }

  function Authorize(roles: seq<string>, user: Option<Identity>): (g: Gate)
    ensures g.Next? <==> user.Some? && Allowed(roles, user.value.role)
    ensures g.Next? ==> g.user == user.value
    ensures g.Reject? ==> g == Reject(403, "Forbidden")
  {
    if user.None? || !Allowed(roles, user.value.role) then Reject(403, "Forbidden")
    else Next(user.value)
  }

  /** The allow-lists the routes are mounted with. */
  const TicketRoles: seq<string> := ["employee", "manager"]
  const UserRoles: seq<string> := ["manager"]

  /** Enlarging the allow-list never turns a pass into a refusal. */
  lemma AuthorizeMonotone(roles: seq<string>, more: seq<string>, user: Option<Identity>)
    requires forall r :: r in roles ==> r in more
    ensures Authorize(roles, user).Next? ==> Authorize(more, user).Next?
  {
  }

  /** The decision depends on the role alone. */
  lemma AuthorizeByRole(roles: seq<string>, u1: Identity, u2: Identity)
    requires u1.role == u2.role
    ensures Authorize(roles, Some(u1)).Next? == Authorize(roles, Some(u2)).Next?
  {
  }

  /** Ticket routes admit employees and managers; user routes admit managers only. */
  lemma RouteRoles(user: Identity)
    ensures Authorize(TicketRoles, Some(user)).Next? <==> user.role == Str("employee") || user.role == Str("manager")
    ensures Authorize(UserRoles, Some(user)).Next? <==> user.role == Str("manager")
  {
  }
}

/**
  The gates and the handlers together: what a request that went through
  authentication and the ticket allow-list can and cannot be answered, and
  how a registration that names its own role reaches the user routes.
 */
module Routes {
  import opened JsValues
  import opened Options
  import opened Requests
  import opened Store
  import opened AuthService
  import opened AuthRepository
  import opened Authentication
  import opened Authorization
  import UserModel
  import UserService
  import TicketController

  /** Behind the ticket allow-list, listing never fails for the role. */
  lemma TicketRouteListing(t: Table, user: Identity, statusQuery: JsValue)
    requires Authorize(TicketRoles, Some(user)).Next?
    ensures TicketController.ListTickets(t, Some(user), statusQuery).code in {200, 400}
  {
  }

  /** Behind the ticket allow-list, an employee's put is answered 401 without touching the table. */
  lemma EmployeeCannotProcess(
    t: Table, user: Identity, ticketKey: JsValue, body: TicketController.PutBody, nextUuid: string)
    requires Authorize(TicketRoles, Some(user)).Next? && user.role != Str("manager")
    requires Truthy(ticketKey)
    ensures TicketController.PutTicket(t, Some(user), ticketKey, body, nextUuid).0.code == 401
    ensures TicketController.PutTicket(t, Some(user), ticketKey, body, nextUuid).1 == t
  {
  }

  /**
    A token issued for a user and presented as "Bearer <token>" passes
    authentication with that user's key and role, given a JWT whose
    verification returns what was signed and whose tokens hold no space.
   */
  lemma TokenRoundTrip(
    user: JsValue,
    sign: JsValue -> string, verify: string -> Decoded,
    repoSign: JsValue -> JsValue, repoDecode: JsValue -> Decoded)
    requires forall c :: verify(sign(c)) == Payload(c)
    requires forall c :: ' ' !in sign(c)
    requires forall v :: repoSign(v) == Sign(v, sign)
    requires forall h :: repoDecode(h) == Decode(h, verify)
    ensures GenerateToken(user, repoSign) == Str(sign(Claims(user)))
    ensures Authenticate(Str("Bearer " + sign(Claims(user))), h => DecodeToken(h, repoDecode))
              == Next(Identity(Prop(user, "pkey"), Prop(user, "role")))
  {
    assert GenerateToken(user, repoSign) == repoSign(user) == Sign(user, sign);
    var token := sign(Claims(user));
    BearerToken(token);
    var header := Str("Bearer " + token);
    assert DecodeToken(header, repoDecode) == repoDecode(header) == Decode(header, verify);
    assert Decode(header, verify) == Payload(Claims(user));
  }

  /**
    A registration whose body asks for the manager role yields a user
    whose token passes the managers-only allow-list of the user routes.
   */
  lemma RegisteredManagerReachesUserRoutes(
    t: Table, init: JsValue, nextUuid: string, u: UserModel.User,
    sign: JsValue -> string, verify: string -> Decoded,
    repoSign: JsValue -> JsValue, repoDecode: JsValue -> Decoded)
    requires Prop(init, "role") == Str("manager")
    requires forall c :: verify(sign(c)) == Payload(c)
    requires forall c :: ' ' !in sign(c)
    requires forall v :: repoSign(v) == Sign(v, sign)
    requires forall h :: repoDecode(h) == Decode(h, verify)
    ensures UserService.Create(t, init, nextUuid).0 == Some(u) ==>
              var created := Obj(UserModel.UserItem(u));
              var gate := Authenticate(Str("Bearer " + sign(Claims(created))), h => DecodeToken(h, repoDecode));
              gate.Next? && Authorize(UserRoles, Some(gate.user)).Next?
  {
    if UserService.Create(t, init, nextUuid).0 != Some(u) {
      return;
    }
    UserService.SelfAssignedManager(t, init, nextUuid);
    var created := Obj(UserModel.UserItem(u));
    assert Prop(created, "role") == Str("manager");
    TokenRoundTrip(created, sign, verify, repoSign, repoDecode);
  }
}
