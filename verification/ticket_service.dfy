/**
  The ticket service: it validates what callers send before handing it to
  the repository. Every operation answers `Some` with its result or `None`
  for "undefined", together with the table as it is afterwards; a rejected
  request never reaches the repository and leaves the table as it was.
 */
module TicketService {
  import opened JsValues
  import opened Options
  import opened UpdateRequests
  import opened Store
  import opened TicketModel
  import opened Validator
  import TicketDao

  /** `ticket.processor != null`: a ticket is claimed once its processor is neither null nor undefined. */
  predicate Claimed(t: Ticket)
  {
    !IsNullish(t.processor)
  }

  /** The lookup's key passes the service's guard: present, truthy and a UUID. */
  predicate ValidKey(lookup: JsValue)
  {
    Truthy(Prop(lookup, "pkey")) && IsValidUUID(Prop(lookup, "pkey"))
  }

  /** `get`. */
  function Get(t: Table, lookup: JsValue, nextUuid: string): (r: Option<Ticket>)
    ensures r.Some? <==> IsValidUUID(Prop(lookup, "pkey")) && Find(t, Prop(lookup, "pkey").s).Some?
    ensures r.Some? ==> r.value.pkey == Prop(lookup, "pkey")
    ensures r.Some? ==> r.value == NewTicket(Find(t, Prop(lookup, "pkey").s).value, nextUuid)
  {
    if !ValidKey(lookup) then None
    else TicketDao.Get(t, Prop(lookup, "pkey"), nextUuid)
  }

  /** The guards of `read`: some filter is given, and each filter that is given is well formed. */
  predicate ReadAccepted(lookup: JsValue)
  {
    var owner := Prop(lookup, "owner");
    var status := Prop(lookup, "status");
    && (Truthy(owner) || Truthy(status))
    && (Truthy(owner) ==> IsValidUUID(owner))
    && (Truthy(status) ==> IsValidStatus(status))
  }

  /** `read`. */
  function Read(t: Table, lookup: JsValue): (r: Option<seq<Item>>)
    ensures r.Some? <==> ReadAccepted(lookup)
    ensures r.Some? ==> r.value == TicketDao.Read(t, lookup)
  {
    var owner := Prop(lookup, "owner");
    var status := Prop(lookup, "status");
    if !(Truthy(owner) || Truthy(status)) then None
    else if Truthy(owner) && !IsValidUUID(owner) then None
    else if Truthy(status) && !IsValidStatus(status) then None
    else Some(TicketDao.Read(t, lookup))
  }

  /** The guards of `create`: an owner UUID, a non-empty description and a positive amount. */
  predicate CreateAccepted(init: JsValue)
  {
    && IsValidUUID(Prop(init, "owner"))
    && IsValidDescription(Prop(init, "description"))
    && IsValidAmount(Prop(init, "amount"))
  }

  /** `create`. */
  function Create(t: Table, init: JsValue, nextUuid: string): (r: (Option<Ticket>, Table))
    ensures r.0.None? ==> r.1 == t
    ensures r.0.Some? ==> CreateAccepted(init)
    ensures CreateAccepted(init) ==> r == TicketDao.Create(t, OwnFields(init), nextUuid)
    ensures r.0.Some? ==>
              && r.0.value.owner == Prop(init, "owner")
              && r.0.value.description == Prop(init, "description")
              && r.0.value.amount == Prop(init, "amount")
  {
    var owner := Prop(init, "owner");
    var description := Prop(init, "description");
    var amount := Prop(init, "amount");
    if !Truthy(owner) || !IsValidUUID(owner) then (None, t)
    else if !Truthy(description) || !IsValidDescription(description) then (None, t)
    else if !Truthy(amount) || !IsValidAmount(amount) then (None, t)
    else
      var r := TicketDao.Create(t, OwnFields(init), nextUuid);
      assert r.0.Some? ==> TicketItem(r.0.value)["owner"] == owner;
      assert r.0.Some? ==> TicketItem(r.0.value)["description"] == description;
      assert r.0.Some? ==> TicketItem(r.0.value)["amount"] == amount;
      r
  }

  /** `update`: only a validated batch against an existing, unclaimed ticket reaches the repository. */
  function Update(t: Table, lookup: JsValue, edits: seq<Edit>, nextUuid: string): (r: (Option<Ticket>, Table))
    ensures r.0.None? ==> r.1 == t
    ensures r.0.Some? ==> ValidKey(lookup) && IsValidTicketUpdate(edits)
    ensures r.0.Some? ==> Get(t, lookup, nextUuid).Some? && !Claimed(Get(t, lookup, nextUuid).value)
    ensures ValidKey(lookup) && IsValidTicketUpdate(edits)
            && Get(t, lookup, nextUuid).Some? && !Claimed(Get(t, lookup, nextUuid).value)
            ==> r == TicketDao.Update(t, Prop(lookup, "pkey"), edits, nextUuid)
  {
    if !ValidKey(lookup) then (None, t)
    else if !IsValidTicketUpdate(edits) then (None, t)
    else
      var key := Prop(lookup, "pkey");
      match TicketDao.Get(t, key, nextUuid)
      case None => (None, t)
      case Some(ticket) =>
        if Claimed(ticket) then (None, t)
        else TicketDao.Update(t, key, edits, nextUuid)
  }

  /** `delete` is not supported: it answers nothing and leaves the table alone. */
  function Delete(t: Table, lookup: JsValue): (r: (Option<Ticket>, Table))
    ensures r.0.None? && r.1 == t
  {
    (None, t)
  }

  /** An update that succeeds writes every edit: the answered ticket and the stored item hold each edited value. */
  lemma UpdateWritesEdits(t: Table, lookup: JsValue, edits: seq<Edit>, nextUuid: string, i: int)
    requires 0 <= i < |edits|
    ensures Update(t, lookup, edits, nextUuid).0.Some? ==>
              var ticket := TicketItem(Update(t, lookup, edits, nextUuid).0.value);
              edits[i].property in ticket && ticket[edits[i].property] == edits[i].value
    ensures Update(t, lookup, edits, nextUuid).0.Some? ==>
              var stored := Find(Update(t, lookup, edits, nextUuid).1, Prop(lookup, "pkey").s);
              stored.Some? && edits[i].property in stored.value && stored.value[edits[i].property] == edits[i].value
  {
    var r := Update(t, lookup, edits, nextUuid);
    if r.0.Some? {
      var key := Prop(lookup, "pkey");
      assert r == TicketDao.Update(t, key, edits, nextUuid);
      assert ValidEdit(TicketEntity, edits[i]);
      TicketDao.UpdateWrites(t, key, edits, nextUuid, i);
    }
  }

  /** A successful update touches no other ticket. */
  lemma UpdateIsolated(t: Table, lookup: JsValue, edits: seq<Edit>, nextUuid: string, k: string)
    ensures Update(t, lookup, edits, nextUuid).0.Some? && k != Prop(lookup, "pkey").s ==>
              Find(Update(t, lookup, edits, nextUuid).1, k) == Find(t, k)
  {
  }

  /**
    A claimed ticket is final: once an update that sets the processor has
    succeeded, every later update of the same ticket is refused and leaves
    the table alone.
   */
  lemma ClaimedTicketIsFinal(
    t: Table, lookup: JsValue, edits: seq<Edit>, nextUuid: string,
    later: seq<Edit>, nextUuid': string)
    requires Targets(edits, "processor")
    ensures var (ticket, t') := Update(t, lookup, edits, nextUuid);
            ticket.Some? ==> Update(t', lookup, later, nextUuid') == (None, t')
  {
    if Update(t, lookup, edits, nextUuid).0.Some? {
      var i :| 0 <= i < |edits| && edits[i].property == "processor";
      UpdateWritesEdits(t, lookup, edits, nextUuid, i);
      var t' := Update(t, lookup, edits, nextUuid).1;
      var item := Find(t', Prop(lookup, "pkey").s).value;
      assert ValidEdit(TicketEntity, edits[i]);
      assert TicketItem(NewTicket(item, nextUuid'))["processor"] == item["processor"];
    }
  }

  /** A ticket whose stored processor is set can never be updated. */
  lemma ClaimedRefusesUpdate(t: Table, lookup: JsValue, edits: seq<Edit>, nextUuid: string)
    requires Get(t, lookup, nextUuid).Some? && Claimed(Get(t, lookup, nextUuid).value)
    ensures Update(t, lookup, edits, nextUuid) == (None, t)
  {
  }

  /**
    `create` copies the caller's own status, processor and key: a new
    ticket can be born approved and already claimed, and a supplied key
    replaces the ticket stored under it.
   */
  lemma CreateKeepsSuppliedFields(t: Table, init: JsValue, nextUuid: string)
    requires Create(t, init, nextUuid).0.Some?
    ensures var ticket := Create(t, init, nextUuid).0.value;
            && ticket.status == OrDefault(Prop(init, "status"), Str("pending"))
            && ticket.processor == OrDefault(Prop(init, "processor"), Null)
            && ticket.pkey == OrDefault(Prop(init, "pkey"), Str(nextUuid))
            && Find(Create(t, init, nextUuid).1, ticket.pkey.s) == Some(TicketItem(ticket))
  {
    var ticket := Create(t, init, nextUuid).0.value;
    var fields := OwnFields(init);
    assert TicketItem(ticket)["status"] == OrDefault(Field(fields, "status"), Str("pending"));
    assert TicketItem(ticket)["processor"] == OrDefault(Field(fields, "processor"), Null);
    assert TicketItem(ticket)["pkey"] == OrDefault(Field(fields, "pkey"), Str(nextUuid));
  }

  /** A create that names neither status nor processor yields a pending, unclaimed ticket. */
  lemma CreateDefaultsPending(t: Table, init: JsValue, nextUuid: string)
    requires Create(t, init, nextUuid).0.Some?
    requires Prop(init, "status") == Undef && Prop(init, "processor") == Undef
    ensures Create(t, init, nextUuid).0.value.status == Str("pending")
    ensures !Claimed(Create(t, init, nextUuid).0.value)
  {
    CreateKeepsSuppliedFields(t, init, nextUuid);
  }

  /** A read by owner answers exactly that owner's stored items, whatever status is also given. */
  lemma ReadByOwner(t: Table, lookup: JsValue, x: Item)
    requires Read(t, lookup).Some?
    requires Truthy(Prop(lookup, "owner"))
    ensures x in Read(t, lookup).value <==> x in t && "owner" in x && x["owner"] == Prop(lookup, "owner")
  {
  }

  /** A read with status "all" and no owner answers the whole table. */
  lemma ReadAll(t: Table, lookup: JsValue)
    requires !Truthy(Prop(lookup, "owner")) && Prop(lookup, "status") == Str("all")
    ensures Read(t, lookup) == Some(t)
  {
  }
}
