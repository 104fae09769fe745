/**
  The ticket repository: the requests it sends to the store and how it
  turns the answers into tickets. A read answers raw items; a get, create
  and update answer tickets built with the `Ticket` constructor.
 */
module TicketDao {
  import opened JsValues
  import opened Options
  import opened UpdateRequests
  import opened Store
  import opened TicketModel
  import UpdateExpression
  import Text
  import Validator

  /** `get`: the item under the lookup's key, wrapped as a ticket; no item, or a key that is not a string, gives nothing. */
  function Get(t: Table, key: JsValue, nextUuid: string): (r: Option<Ticket>)
    ensures r.Some? <==> key.Str? && Find(t, key.s).Some?
    ensures r.Some? ==> r.value == NewTicket(Find(t, key.s).value, nextUuid)
    ensures r.Some? ==> r.value.pkey == key
  {
    if !key.Str? then None
    else match Find(t, key.s)
      case Some(item) => Some(NewTicket(item, nextUuid))
      case None => None
  }

  datatype ReadFilter = ByOwner(owner: JsValue) | ByStatus(status: JsValue) | Unfiltered

  /** The scan `read` issues: an owner filter wins; a status other than "all" comes next; otherwise no filter. */
  function ReadFilterOf(lookup: JsValue): (f: ReadFilter)
    ensures f.ByOwner? <==> Truthy(Prop(lookup, "owner"))
    ensures f.ByOwner? ==> f.owner == Prop(lookup, "owner")
    ensures f.ByStatus? <==>
              !Truthy(Prop(lookup, "owner")) && Truthy(Prop(lookup, "status")) && Prop(lookup, "status") != Str("all")
    ensures f.ByStatus? ==> f.status == Prop(lookup, "status")
  {
    var owner := Prop(lookup, "owner");
    var status := Prop(lookup, "status");
    if Truthy(owner) then ByOwner(owner)
    else if Truthy(status) && status != Str("all") then ByStatus(status)
    else Unfiltered
  }

  /** `read`: the items the scan selects, in scan order. */
  function Read(t: Table, lookup: JsValue): (r: seq<Item>)
    ensures ReadFilterOf(lookup).Unfiltered? ==> r == t
    ensures ReadFilterOf(lookup).ByOwner? ==>
              var owner := Prop(lookup, "owner");
              forall x :: x in r <==> x in t && "owner" in x && x["owner"] == owner
    ensures ReadFilterOf(lookup).ByStatus? ==>
              var status := Prop(lookup, "status");
              forall x :: x in r <==> x in t && "status" in x && x["status"] == status
  {
    match ReadFilterOf(lookup)
    case ByOwner(owner) => Where(t, "owner", owner)
    case ByStatus(status) => Where(t, "status", status)
    case Unfiltered => t
  }

  /** `create`: build the ticket with the constructor and put its item. */
  function Create(t: Table, init: map<string, JsValue>, nextUuid: string): (r: (Option<Ticket>, Table))
    ensures r.0.None? ==> r.1 == t
    ensures r.0.Some? ==> r.0.value == NewTicket(init, nextUuid)
    ensures r.0.Some? ==> r.0.value.pkey.Str? && Find(r.1, r.0.value.pkey.s) == Some(TicketItem(r.0.value))
    ensures r.0.Some? ==> forall k :: k != r.0.value.pkey.s ==> Find(r.1, k) == Find(t, k)
  {
    var ticket := NewTicket(init, nextUuid);
    var item := TicketItem(ticket);
    if Storable(item) then (Some(ticket), Put(t, item)) else (None, t)
  }

  /** The text and maps `update` sends: clauses `#p{i} = :p{i}` separated by ", ", values as given. */
  method BuildUpdate(edits: seq<Edit>) returns (expression: string, names: map<string, string>, values: map<string, JsValue>)
    ensures expression == "set " + Text.Join(UpdateExpression.Clauses(edits, " = "), ", ")
    ensures names == UpdateExpression.NameMap(edits)
    ensures values == UpdateExpression.ValueMap(edits, false)
  {
    expression, names, values := UpdateExpression.Build(edits, " = ", ", ", false);
  }

  /** `update`: set the edited attributes of the item under the lookup's key; the new item is wrapped as a ticket. */
  function Update(t: Table, key: JsValue, edits: seq<Edit>, nextUuid: string): (r: (Option<Ticket>, Table))
    ensures r.0.None? ==> r.1 == t
    ensures r.0.Some? <==> key.Str? && UpdateItem(t, key.s, edits).Some?
    ensures r.0.Some? ==>
              var (t', item) := UpdateItem(t, key.s, edits).value;
              r == (Some(NewTicket(item, nextUuid)), t')
  {
    if !key.Str? then (None, t)
    else match UpdateItem(t, key.s, edits)
      case Some((t', item)) => (Some(NewTicket(item, nextUuid)), t')
      case None => (None, t)
  }

  /**
    `delete`: the item under the key leaves the table; the request asks for
    no old attributes back, so the answer is always nothing.
   */
  function Delete(t: Table, key: JsValue): (r: (Option<Ticket>, Table))
    ensures r.0.None?
    ensures key.Str? ==> Find(r.1, key.s).None?
    ensures key.Str? ==> forall k :: k != key.s ==> Find(r.1, k) == Find(t, k)
    ensures !key.Str? ==> r.1 == t
  {
    if key.Str? then (None, Remove(t, key.s)) else (None, t)
  }

  /** A successful update stores each edit's value, and the answered ticket shows the values that are not undefined. */
  lemma UpdateWrites(t: Table, key: JsValue, edits: seq<Edit>, nextUuid: string, i: int)
    requires Update(t, key, edits, nextUuid).0.Some?
    requires 0 <= i < |edits|
    ensures var (ticket, t') := Update(t, key, edits, nextUuid);
            && Find(t', key.s).Some?
            && edits[i].property in Find(t', key.s).value
            && Find(t', key.s).value[edits[i].property] == edits[i].value
            && (edits[i].property in TicketTypes && edits[i].value != Undef ==>
                  TicketItem(ticket.value)[edits[i].property] == edits[i].value)
  {
    var (t', item) := UpdateItem(t, key.s, edits).value;
    UpdateItemSets(t, key.s, edits, i);
    assert Find(t', key.s) == Some(item);
  }

  /** Ticket schema names contain no digit, so a valid ticket batch has collision-free placeholders. */
  lemma ValidBatchDigitFree(edits: seq<Edit>)
    requires Validator.IsValidTicketUpdate(edits)
    ensures UpdateExpression.DigitFreeProperties(edits)
  {
    forall i | 0 <= i < |edits|
      ensures Text.DigitFree(edits[i].property)
    {
      assert edits[i].property in TicketTypes;
    }
  }

  /** For a validated batch, the maps sent with the expression hold one placeholder per edit with its property and value. */
  lemma UpdatePlaceholders(edits: seq<Edit>, i: nat)
    requires Validator.IsValidTicketUpdate(edits)
    requires i < |edits|
    ensures UpdateExpression.NameKey(edits[i].property, i) in UpdateExpression.NameMap(edits)
    ensures UpdateExpression.ValueKey(edits[i].property, i) in UpdateExpression.ValueMap(edits, false)
    ensures UpdateExpression.NameMap(edits)[UpdateExpression.NameKey(edits[i].property, i)] == edits[i].property
    ensures UpdateExpression.ValueMap(edits, false)[UpdateExpression.ValueKey(edits[i].property, i)] == edits[i].value
    ensures |UpdateExpression.NameMap(edits)| == |edits| == |UpdateExpression.ValueMap(edits, false)|
  {
    ValidBatchDigitFree(edits);
    UpdateExpression.NameMapAt(edits, i);
    UpdateExpression.ValueMapAt(edits, false, i);
    UpdateExpression.PlaceholderMapSizes(edits, false);
  }

  /** The expression for a status change: "set #status0 = :status0". */
  lemma StatusUpdateText()
    ensures UpdateExpression.Expression([Edit("status", Str("approved"))], " = ", ", ") == "set #status0 = :status0"
  {
    var edits := [Edit("status", Str("approved"))];
    assert Text.Digit(0) == '0';
    assert Text.IntText(0) == "0";
    var c := UpdateExpression.Clause("status", 0, " = ");
    assert c == "#status0 = :status0";
    UpdateExpression.ExpressionShape(edits, " = ", ", ");
  }
}
