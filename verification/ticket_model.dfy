/**
  The ticket entity: its field schema (field name to `typeof` string) and
  the `Ticket` constructor, which fills in defaults for the fields the
  caller leaves undefined and copies everything else without checking it.
 */
module TicketModel {
  import opened JsValues

  /** Field name to the primitive type `typeof` must report for it. */
  const TicketTypes: map<string, string> := map[
    "pkey" := "string",
    "status" := "string",
    "type" := "string",
    "processor" := "string",
    "amount" := "number",
    "description" := "string",
    "owner" := "string"
  ]

  /** A ticket as the constructor builds it; `kind` is the field named `type`. */
  datatype Ticket = Ticket(
    pkey: JsValue,
    status: JsValue,
    kind: JsValue,
    processor: JsValue,
    amount: JsValue,
    description: JsValue,
    owner: JsValue)

  /** The stored item: one attribute per schema field. */
  function TicketItem(t: Ticket): (item: map<string, JsValue>)
    ensures item.Keys == TicketTypes.Keys
  {
    map[
      "pkey" := t.pkey,
      "status" := t.status,
      "type" := t.kind,
      "processor" := t.processor,
      "amount" := t.amount,
      "description" := t.description,
      "owner" := t.owner
    ]
  }

  /**
    The value a destructuring default supplies for `field` (`undefined` for
    the three fields without one); `nextUuid` is what `uuidv4()` would return.
   */
  function TicketDefault(field: string, nextUuid: string): JsValue
  {
    if field == "pkey" then Str(nextUuid)
    else if field == "status" then Str("pending")
    else if field == "type" then Str("reimbursement")
    else if field == "processor" then Null
    else Undef
  }

  /** A destructuring default applies only to an undefined field, not to `null`. */
  function OrDefault(v: JsValue, default: JsValue): JsValue
  {
    if v.Undef? then default else v
  }

  /** `new Ticket(init)`. */
  function NewTicket(init: map<string, JsValue>, nextUuid: string): (t: Ticket)
    // a field the caller supplies, even as null, is kept verbatim
    ensures forall f :: f in TicketTypes && Field(init, f) != Undef ==> TicketItem(t)[f] == init[f]
    // an undefined field takes its default
    ensures forall f :: f in TicketTypes && Field(init, f) == Undef ==>
              TicketItem(t)[f] == TicketDefault(f, nextUuid)
  {
    Ticket(
      OrDefault(Field(init, "pkey"), Str(nextUuid)),
      OrDefault(Field(init, "status"), Str("pending")),
      OrDefault(Field(init, "type"), Str("reimbursement")),
      OrDefault(Field(init, "processor"), Null),
      Field(init, "amount"),
      Field(init, "description"),
      Field(init, "owner"))
  }

  /** The constructor called with only owner, amount and description yields a fresh pending ticket. */
  lemma MinimalTicket(owner: JsValue, amount: JsValue, description: JsValue, nextUuid: string)
    requires owner != Undef && amount != Undef && description != Undef
    ensures NewTicket(map["owner" := owner, "amount" := amount, "description" := description], nextUuid)
         == Ticket(Str(nextUuid), Str("pending"), Str("reimbursement"), Null, amount, description, owner)
  {
    var init := map["owner" := owner, "amount" := amount, "description" := description];
    var t := NewTicket(init, nextUuid);
    assert TicketItem(t)["pkey"] == Str(nextUuid);
    assert TicketItem(t)["processor"] == Null;
  }

  /** Wrapping a stored item with no undefined attribute gives back the ticket it was stored from. */
  lemma {:induction false} WrapStoredItem(t: Ticket, nextUuid: string)
    requires forall f :: f in TicketTypes ==> TicketItem(t)[f] != Undef
    ensures NewTicket(TicketItem(t), nextUuid) == t
  {
    var item := TicketItem(t);
    var u := NewTicket(item, nextUuid);
    assert TicketItem(u)["pkey"] == item["pkey"];
    assert TicketItem(u)["status"] == item["status"];
    assert TicketItem(u)["type"] == item["type"];
    assert TicketItem(u)["processor"] == item["processor"];
  }

  /** The schema has exactly seven fields; amount is the only number. */
  lemma TicketSchemaShape()
    ensures TicketTypes.Keys == {"pkey", "status", "type", "processor", "amount", "description", "owner"}
    ensures forall f :: f in TicketTypes ==> (TicketTypes[f] == "number" <==> f == "amount")
    ensures forall f :: f in TicketTypes && f != "amount" ==> TicketTypes[f] == "string"
  {
  }
}
