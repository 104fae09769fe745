/**
  The ticket routes' handlers as outcome functions: each takes the caller
  (`req.user`, absent when no identity was attached), the route parameter,
  query or body it reads, and the table, and answers a status code, a
  message and the payload the handler sends, with the table afterwards.
 */
module TicketController {
  import opened JsValues
  import opened Options
  import opened UpdateRequests
  import opened Store
  import opened TicketModel
  import opened Requests
  import Validator
  import TicketDao
  import TicketService

  datatype Body = NoBody | Tickets(items: seq<Item>) | OneTicket(ticket: Ticket) | Key(pkey: JsValue)

  datatype Reply = Reply(code: int, message: string, body: Body)

  const Employee: JsValue := Str("employee")
  const Manager: JsValue := Str("manager")

  /** The lookup `read` receives for an employee: only the caller's own tickets. */
  function OwnLookup(user: Identity): JsValue
  {
    Single("owner", user.pkey)
  }

  /** The status a manager lists: the query's, or "pending" when the query is falsy. */
  function ManagerStatus(statusQuery: JsValue): (s: JsValue)
    ensures Truthy(s)
    ensures Truthy(statusQuery) ==> s == statusQuery
    ensures !Truthy(statusQuery) ==> s == Str("pending")
  {
    if Truthy(statusQuery) then statusQuery else Str("pending")
  }

  /** `get /`: list the tickets the caller's role may see. */
  function ListTickets(t: Table, user: Option<Identity>, statusQuery: JsValue): (r: Reply)
    ensures user.None? ==> r.code == 400
    ensures user.Some? && user.value.role != Employee && user.value.role != Manager ==> r.code == 401
    ensures r.code == 200 <==> r.body.Tickets?
    ensures user.Some? && user.value.role == Employee ==>
              r.code == (if TicketService.Read(t, OwnLookup(user.value)).Some? then 200 else 400)
    ensures user.Some? && user.value.role == Manager ==>
              r.code == (if TicketService.Read(t, Single("status", ManagerStatus(statusQuery))).Some? then 200 else 400)
    ensures r.code == 200 && user.value.role == Employee ==>
              Some(r.body.items) == TicketService.Read(t, OwnLookup(user.value))
    ensures r.code == 200 && user.value.role == Manager ==>
              Some(r.body.items) == TicketService.Read(t, Single("status", ManagerStatus(statusQuery)))
  {
    if user.None? then Reply(400, "Invalid body", NoBody)
    else
      var u := user.value;
      if u.role == Employee then
        match TicketService.Read(t, OwnLookup(u))
        case None => Reply(400, "Invalid Tickets", NoBody)
        case Some(items) => Reply(200, "[" + Render(u.pkey) + "] got Tickets", Tickets(items))
      else if u.role == Manager then
        match TicketService.Read(t, Single("status", ManagerStatus(statusQuery)))
        case None => Reply(400, "Invalid Tickets", NoBody)
        case Some(items) => Reply(200, "[" + Render(u.pkey) + "] got Tickets", Tickets(items))
      else Reply(401, "Unathorized", NoBody)
  }

  /** `get /:ticket_pkey`: one ticket, to a manager or to the employee who owns it. */
  function GetTicket(t: Table, user: Option<Identity>, ticketKey: JsValue, nextUuid: string): (r: Reply)
    ensures user.None? || !Truthy(ticketKey) ==> r.code == 400
    ensures user.Some? && Truthy(ticketKey) && TicketService.Get(t, Single("pkey", ticketKey), nextUuid).None? ==>
              r.code == 404
    ensures r.code == 200 ==>
              && r.body.OneTicket?
              && Some(r.body.ticket) == TicketService.Get(t, Single("pkey", ticketKey), nextUuid)
              && r.body.ticket.pkey == ticketKey
              && (user.value.role == Manager
                  || (user.value.role == Employee && LooseEquals(r.body.ticket.owner, user.value.pkey)))
    ensures r.code == 401 ==>
              user.value.role == Employee
              && !LooseEquals(TicketService.Get(t, Single("pkey", ticketKey), nextUuid).value.owner, user.value.pkey)
    ensures user.Some? && Truthy(ticketKey) && TicketService.Get(t, Single("pkey", ticketKey), nextUuid).Some? ==>
              var ticket := TicketService.Get(t, Single("pkey", ticketKey), nextUuid).value;
              var role := user.value.role;
              && (role == Manager ==> r.code == 200 && r.body == OneTicket(ticket))
              && (role == Employee ==> r.code == (if LooseEquals(ticket.owner, user.value.pkey) then 200 else 401))
              && (role == Employee && LooseEquals(ticket.owner, user.value.pkey) ==> r.body == OneTicket(ticket))
              && (role != Manager && role != Employee ==> r.code == 404)
  {
    if user.None? then Reply(400, "No found", NoBody)
    else if !Truthy(ticketKey) then Reply(400, "Invalid Ticket Key", NoBody)
    else
      var u := user.value;
      match TicketService.Get(t, Single("pkey", ticketKey), nextUuid)
      case None => Reply(404, "No ticket found", NoBody)
      case Some(ticket) =>
        if u.role == Manager then Reply(200, "[" + Render(u.pkey) + "] got Ticket", OneTicket(ticket))
        else if u.role == Employee then
          if !LooseEquals(ticket.owner, u.pkey) then Reply(401, "Unathorized: Owner Invalid", NoBody)
          else Reply(200, Render(u.pkey) + " got Ticket", OneTicket(ticket))
        else Reply(404, "Not Found", NoBody)
  }

  /**
    Fetching a stored ticket by its identifier: a manager always gets it, an
    employee gets it exactly when owning it, and an unknown key gives 404.
   */
  lemma GetTicketFromStore(t: Table, user: Identity, k: string, nextUuid: string)
    requires Validator.IsValidUUID(Str(k))
    ensures Find(t, k).None? ==> GetTicket(t, Some(user), Str(k), nextUuid).code == 404
    ensures Find(t, k).Some? ==>
              var ticket := NewTicket(Find(t, k).value, nextUuid);
              var r := GetTicket(t, Some(user), Str(k), nextUuid);
              && (r.code == 200 <==> user.role == Manager || (user.role == Employee && LooseEquals(ticket.owner, user.pkey)))
              && (r.code == 200 ==> r.body == OneTicket(ticket) && ticket.pkey == Str(k))
  {
    Validator.ValidUUIDTruthy(Str(k));
  }

  /** The part of a put body the handler reads: no payload, no usable `updateObjects`, or a list of edits. */
  datatype PutBody = NoPayload | NoUpdates | Updates(edits: seq<Edit>)

  /** The batch the service receives: the caller's edits with the claim appended last. */
  function ClaimingBatch(edits: seq<Edit>, user: Identity): (b: seq<Edit>)
    ensures |b| == |edits| + 1 && b[..|edits|] == edits
    ensures b[|edits|] == Edit("processor", user.pkey)
  {
    edits + [Edit("processor", user.pkey)]
  }

  /** `put /:ticket_pkey`: a manager processes a ticket, which claims it. */
  function PutTicket(t: Table, user: Option<Identity>, ticketKey: JsValue, body: PutBody, nextUuid: string)
    : (r: (Reply, Table))
    ensures r.0.code != 200 ==> r.1 == t
    ensures r.0.code == 200 ==> user.Some? && user.value.role == Manager && body.Updates? && Truthy(ticketKey)
    ensures r.0.code == 200 ==>
              var u := user.value;
              var lookup := Single("pkey", ticketKey);
              var (ticket, t') := TicketService.Update(t, lookup, ClaimingBatch(body.edits, u), nextUuid);
              ticket.Some? && t' == r.1
    ensures user.Some? && Truthy(ticketKey) && user.value.role != Manager ==> r.0.code == 401
    ensures user.Some? && user.value.role == Manager && Truthy(ticketKey) && body.Updates? ==>
              r.0.code == (if TicketService.Update(t, Single("pkey", ticketKey),
                                                   ClaimingBatch(body.edits, user.value), nextUuid).0.Some?
                           then 200 else 422)
  {
    if user.None? then (Reply(400, "Invalid User Object", NoBody), t)
    else if !Truthy(ticketKey) then (Reply(400, "Invalid Ticket", NoBody), t)
    else
      var u := user.value;
      if u.role != Manager then (Reply(401, "Unathorized", NoBody), t)
      else match body
        case NoPayload => (Reply(400, "Invalid Object", NoBody), t)
        case NoUpdates => (Reply(400, "Invalid Updates", NoBody), t)
        case Updates(edits) =>
          match TicketService.Update(t, Single("pkey", ticketKey), ClaimingBatch(edits, u), nextUuid)
          case (None, _) => (Reply(422, "Ticket Error", NoBody), t)
          case (Some(updated), t') =>
            (Reply(200, "Ticket:[" + Render(updated.pkey) + "]; Processed by manager:[" + Render(u.pkey) + "]", NoBody), t')
  }

  /** The object the service receives: the body with `owner` overridden by the caller's key. */
  function PostInit(data: JsValue, user: Identity): (init: JsValue)
    ensures Prop(init, "owner") == user.pkey
    ensures forall f :: f != "owner" ==> Prop(init, f) == Prop(data, f)
  {
    Obj(OwnFields(data)["owner" := user.pkey])
  }

  /** `post /`: create a ticket owned by the caller. */
  function PostTicket(t: Table, user: Identity, data: JsValue, nextUuid: string): (r: (Reply, Table))
    ensures r.0.code != 200 ==> r.1 == t
    ensures r.0.code == 200 <==> Truthy(data) && TicketService.Create(t, PostInit(data, user), nextUuid).0.Some?
    ensures r.0.code == 200 ==>
              var (ticket, t') := TicketService.Create(t, PostInit(data, user), nextUuid);
              && r.0.body == Key(ticket.value.pkey)
              && r.1 == t'
              && ticket.value.owner == user.pkey
              && Validator.IsValidUUID(user.pkey)
  {
    if !Truthy(data) then (Reply(400, "Invalid Object", NoBody), t)
    else match TicketService.Create(t, PostInit(data, user), nextUuid)
      case (None, _) => (Reply(400, "Invalid Creation", NoBody), t)
      case (Some(created), t') => (Reply(200, "[" + Render(user.pkey) + "] created Ticket", Key(created.pkey)), t')
  }

  /** An employee's listing holds exactly the stored tickets the employee owns. */
  lemma EmployeeListsOwnTickets(t: Table, user: Identity, statusQuery: JsValue, x: Item)
    requires user.role == Employee
    requires ListTickets(t, Some(user), statusQuery).code == 200
    ensures x in ListTickets(t, Some(user), statusQuery).body.items <==>
              x in t && "owner" in x && x["owner"] == user.pkey
  {
    assert Prop(OwnLookup(user), "owner") == user.pkey;
    assert Prop(OwnLookup(user), "status") == Undef;
  }

  /** A manager who gives no status query lists exactly the pending tickets. */
  lemma ManagerListsPendingByDefault(t: Table, user: Identity, statusQuery: JsValue, x: Item)
    requires user.role == Manager && !Truthy(statusQuery)
    ensures ListTickets(t, Some(user), statusQuery).code == 200
    ensures x in ListTickets(t, Some(user), statusQuery).body.items <==>
              x in t && "status" in x && x["status"] == Str("pending")
  {
    var lookup := Single("status", Str("pending"));
    assert Prop(lookup, "owner") == Undef;
    assert Prop(lookup, "status") == Str("pending");
  }

  /** A manager's status query "all" lists the whole table. */
  lemma ManagerListsAll(t: Table, user: Identity)
    requires user.role == Manager
    ensures ListTickets(t, Some(user), Str("all")) == Reply(200, "[" + Render(user.pkey) + "] got Tickets", Tickets(t))
  {
    TicketService.ReadAll(t, Single("status", Str("all")));
  }

  /** A successful put claims the ticket for the calling manager: the stored processor is the caller's key. */
  lemma PutClaimsForCaller(t: Table, user: Identity, ticketKey: JsValue, body: PutBody, nextUuid: string)
    ensures var (reply, t') := PutTicket(t, Some(user), ticketKey, body, nextUuid);
            reply.code == 200 ==>
              && ticketKey.Str?
              && Find(t', ticketKey.s).Some?
              && "processor" in Find(t', ticketKey.s).value
              && Find(t', ticketKey.s).value["processor"] == user.pkey
  {
    if PutTicket(t, Some(user), ticketKey, body, nextUuid).0.code == 200 {
      var batch := ClaimingBatch(body.edits, user);
      var lookup := Single("pkey", ticketKey);
      TicketService.UpdateWritesEdits(t, lookup, batch, nextUuid, |body.edits|);
    }
  }

  /** After a successful put, every later put of the same ticket, by any manager, answers 422. */
  lemma PutIsFinal(
    t: Table, user: Identity, ticketKey: JsValue, body: PutBody, nextUuid: string,
    other: Identity, later: seq<Edit>, nextUuid': string)
    requires other.role == Manager
    ensures var (reply, t') := PutTicket(t, Some(user), ticketKey, body, nextUuid);
            reply.code == 200 ==>
              PutTicket(t', Some(other), ticketKey, Updates(later), nextUuid') == (Reply(422, "Ticket Error", NoBody), t')
  {
    if PutTicket(t, Some(user), ticketKey, body, nextUuid).0.code != 200 {
      return;
    }
    var t' := PutTicket(t, Some(user), ticketKey, body, nextUuid).1;
    var batch := ClaimingBatch(body.edits, user);
    var laterBatch := ClaimingBatch(later, other);
    var lookup := Single("pkey", ticketKey);
    assert TicketService.Update(t, lookup, batch, nextUuid).0.Some?;
    assert TicketService.Update(t, lookup, batch, nextUuid).1 == t';
    assert Targets(batch, "processor") by {
      assert batch[|body.edits|].property == "processor";
    }
    TicketService.ClaimedTicketIsFinal(t, lookup, batch, nextUuid, laterBatch, nextUuid');
    assert TicketService.Update(t', lookup, laterBatch, nextUuid') == (None, t');
  }

  /** A manager's own edit of `processor` clashes with the appended claim, so the put answers 422. */
  lemma PutRefusesOwnProcessorEdit(t: Table, user: Identity, ticketKey: JsValue, edits: seq<Edit>, nextUuid: string)
    requires user.role == Manager && Truthy(ticketKey)
    requires Targets(edits, "processor")
    ensures PutTicket(t, Some(user), ticketKey, Updates(edits), nextUuid) == (Reply(422, "Ticket Error", NoBody), t)
  {
    var batch := ClaimingBatch(edits, user);
    var i :| 0 <= i < |edits| && edits[i].property == "processor";
    assert batch[i].property == batch[|edits|].property;
    assert !DistinctTargets(batch);
  }

  /**
    The body of a post may carry a key: the created ticket is stored under
    it, replacing whatever ticket was there, claimed or not.
   */
  lemma PostReplacesExisting(t: Table, user: Identity, data: JsValue, nextUuid: string, k: string)
    requires PostTicket(t, user, data, nextUuid).0.code == 200
    requires Prop(data, "pkey") == Str(k)
    ensures var t' := PostTicket(t, user, data, nextUuid).1;
            && Find(t', k).Some?
            && Find(t', k).value["owner"] == user.pkey
            && Find(t', k).value["processor"] == OrDefault(Prop(data, "processor"), Null)
  {
    var init := PostInit(data, user);
    TicketService.CreateKeepsSuppliedFields(t, init, nextUuid);
  }
}
