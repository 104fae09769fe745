/** An update request: an ordered list of `{property, value}` edit instructions. */
module UpdateRequests {
  import opened JsValues

  datatype Edit = Edit(property: string, value: JsValue)

  /** True iff some edit of the list targets `property`. */
  predicate Targets(edits: seq<Edit>, property: string) {
    exists i :: 0 <= i < |edits| && edits[i].property == property
  }
}

/**
  The field predicates and the two batch update checkers. Each batch checker
  walks the edits in order; an edit passes when its property is in the
  entity's schema, `typeof` its value is the registered type, and the
  property's own rule accepts the value. The first failing edit rejects the
  whole batch.
 */
module Validator {
  import opened JsValues
  import opened Uuid
  import opened UpdateRequests
  import TicketModel
  import UserModel

  /** `isValidUUID`: a string in UUID form. */
  predicate IsValidUUID(v: JsValue)
  {
    TypeOf(v) == "string" && IsUUID(v.s)
  }

  const Statuses: seq<string> := ["pending", "approved", "denied", "all"]

  /** `isValidStatus`: `includes` on a list of strings matches only a string element. */
  predicate IsValidStatus(v: JsValue)
    ensures IsValidStatus(v) <==>
              v in {Str("pending"), Str("approved"), Str("denied"), Str("all")}
  {
    v.Str? && v.s in Statuses
  }

  /** `isValidDescription`: a non-empty value whose type is the schema's type for descriptions. */
  predicate IsValidDescription(v: JsValue)
    ensures IsValidDescription(v) <==> v.Str? && |v.s| > 0
  {
    !LooseEquals(v, Str("")) && TypeOf(v) == TicketModel.TicketTypes["description"]
  }

  /** `isValidAmount`: greater than zero, and of the schema's type for amounts. */
  predicate IsValidAmount(v: JsValue)
    ensures IsValidAmount(v) <==> v.Num? && v.n > 0.0
  {
    TypeOf(v) == TicketModel.TicketTypes["amount"] && v.n > 0.0
  }

  /** The characters of the `specialChars` pattern. */
  const SpecialChars: set<char> := {
    ' ', '`', '!', '@', '#', '$', '%', '^', '&', '*', '(', ')', '+', '=',
    '[', ']', '{', '}', ';', '\'', ':', '"', '\\', '|', ',', '.', '<', '>',
    '/', '?', '~'
  }

  /** `specialChars.test(s)`: some character of `s` is special. */
  predicate HasSpecialChar(s: string) {
    exists i :: 0 <= i < |s| && s[i] in SpecialChars
  }

  /** `isValidUsername`. */
  predicate IsValidUsername(v: JsValue)
    ensures IsValidUsername(v) <==>
              v.Str? && v.s != "" && forall i :: 0 <= i < |v.s| ==> v.s[i] !in SpecialChars
  {
    !LooseEquals(v, Str("")) && TypeOf(v) == "string" && !HasSpecialChar(v.s)
  }

  /** `isValidPassword`. */
  predicate IsValidPassword(v: JsValue)
    ensures IsValidPassword(v) <==> v.Str? && v.s != ""
  {
    !LooseEquals(v, Str("")) && TypeOf(v) == "string"
  }

  const Roles: seq<string> := ["employee", "manager"]

  /** `isValidRole`. */
  predicate IsValidRole(v: JsValue)
    ensures IsValidRole(v) <==> v == Str("employee") || v == Str("manager")
  {
    v.Str? && v.s in Roles
  }

  /** The per-property rules, as data: the `switch` of each batch checker maps a property to one of these. */
  datatype Rule = IdRule | StatusRule | AmountRule | DescriptionRule | RoleRule | UsernameRule | PasswordRule | Refuse

  predicate Holds(rule: Rule, v: JsValue)
  {
    match rule
    case IdRule => IsValidUUID(v)
    case StatusRule => IsValidStatus(v)
    case AmountRule => IsValidAmount(v)
    case DescriptionRule => IsValidDescription(v)
    case RoleRule => IsValidRole(v)
    case UsernameRule => IsValidUsername(v)
    case PasswordRule => IsValidPassword(v)
    case Refuse => false
  }

  datatype Entity = TicketEntity | UserEntity

  function Schema(entity: Entity): map<string, string>
  {
    match entity
    case TicketEntity => TicketModel.TicketTypes
    case UserEntity => UserModel.UserTypes
  }

  /** The `switch (update.property)` of each checker; unlisted properties fall to `default`. */
  function RuleOf(entity: Entity, property: string): Rule
  {
    match entity
    case TicketEntity =>
      if property in {"pkey", "processor", "owner"} then IdRule
      else if property == "status" then StatusRule
      else if property == "amount" then AmountRule
      else if property == "description" then DescriptionRule
      else Refuse
    case UserEntity =>
      if property == "pkey" then IdRule
      else if property == "role" then RoleRule
      else if property == "username" then UsernameRule
      else if property == "password" then PasswordRule
      else Refuse
  }

  /** The three checks one edit must pass, in the order the checkers make them. */
  predicate ValidEdit(entity: Entity, edit: Edit)
  {
    && edit.property in Schema(entity)
    && TypeOf(edit.value) == Schema(entity)[edit.property]
    && Holds(RuleOf(entity, edit.property), edit.value)
  }

  /** Reference meaning of a batch check: every edit is valid. */
  predicate ValidBatch(entity: Entity, edits: seq<Edit>)
  {
    forall i :: 0 <= i < |edits| ==> ValidEdit(entity, edits[i])
  }

  /** `isValidTicketUpdate`: every edit names an editable ticket field and passes that field's rule. */
  predicate IsValidTicketUpdate(edits: seq<Edit>)
    ensures IsValidTicketUpdate(edits) <==>
              forall i :: 0 <= i < |edits| ==>
                || (edits[i].property in {"pkey", "processor", "owner"} && IsValidUUID(edits[i].value))
                || (edits[i].property == "status" && IsValidStatus(edits[i].value))
                || (edits[i].property == "amount" && IsValidAmount(edits[i].value))
                || (edits[i].property == "description" && IsValidDescription(edits[i].value))
  {
    ValidBatch(TicketEntity, edits)
  }

  /** `isValidUserUpdate`: every edit names a user field and passes that field's rule. */
  predicate IsValidUserUpdate(edits: seq<Edit>)
    ensures IsValidUserUpdate(edits) <==>
              forall i :: 0 <= i < |edits| ==>
                || (edits[i].property == "pkey" && IsValidUUID(edits[i].value))
                || (edits[i].property == "role" && IsValidRole(edits[i].value))
                || (edits[i].property == "username" && IsValidUsername(edits[i].value))
                || (edits[i].property == "password" && IsValidPassword(edits[i].value))
  {
    ValidBatch(UserEntity, edits)
  }

  /**
    The checkers' loop: stop at the first edit that fails a check. `checked`
    is the number of edits found valid before stopping.
   */
  method CheckUpdate(entity: Entity, edits: seq<Edit>) returns (isValid: bool, checked: nat)
    ensures checked <= |edits|
    ensures isValid <==> checked == |edits|
    ensures isValid == ValidBatch(entity, edits)
    ensures forall j :: 0 <= j < checked ==> ValidEdit(entity, edits[j])
    ensures checked < |edits| ==> !ValidEdit(entity, edits[checked])
  {
    isValid := true;
    checked := 0;
    while checked < |edits|
      invariant checked <= |edits|
      invariant isValid
      invariant forall j :: 0 <= j < checked ==> ValidEdit(entity, edits[j])
    {
      var update := edits[checked];
      var schema := Schema(entity);
      if update.property !in schema {
        isValid := false;
        break;
      }
      if TypeOf(update.value) != schema[update.property] {
        isValid := false;
        break;
      }
      if !Holds(RuleOf(entity, update.property), update.value) {
        isValid := false;
        break;
      }
      checked := checked + 1;
    }
  }

  /** A ticket edit is valid exactly when the property's own rule accepts the value; the type check adds nothing. */
  lemma TicketEditRules(edit: Edit)
    ensures ValidEdit(TicketEntity, edit) <==>
              || (edit.property in {"pkey", "processor", "owner"} && IsValidUUID(edit.value))
              || (edit.property == "status" && IsValidStatus(edit.value))
              || (edit.property == "amount" && IsValidAmount(edit.value))
              || (edit.property == "description" && IsValidDescription(edit.value))
  {
  }

  /** A user edit is valid exactly when the property's own rule accepts the value. */
  lemma UserEditRules(edit: Edit)
    ensures ValidEdit(UserEntity, edit) <==>
              || (edit.property == "pkey" && IsValidUUID(edit.value))
              || (edit.property == "role" && IsValidRole(edit.value))
              || (edit.property == "username" && IsValidUsername(edit.value))
              || (edit.property == "password" && IsValidPassword(edit.value))
  {
  }

  /** The `type` field is in the ticket schema, yet no edit of it is ever accepted. */
  lemma TypeNeverEditable(v: JsValue)
    ensures "type" in TicketModel.TicketTypes
    ensures !ValidEdit(TicketEntity, Edit("type", v))
  {
  }

  /** Batch validity splits over concatenation, and the empty batch is valid. */
  lemma {:induction false} ValidBatchConcat(entity: Entity, xs: seq<Edit>, ys: seq<Edit>)
    ensures ValidBatch(entity, [])
    ensures ValidBatch(entity, xs + ys) <==> ValidBatch(entity, xs) && ValidBatch(entity, ys)
  {
    if ValidBatch(entity, xs) && ValidBatch(entity, ys) {
      forall i | 0 <= i < |xs + ys|
        ensures ValidEdit(entity, (xs + ys)[i])
      {
        if i >= |xs| {
          assert (xs + ys)[i] == ys[i - |xs|];
        }
      }
    }
    if ValidBatch(entity, xs + ys) {
      forall i | 0 <= i < |xs|
        ensures ValidEdit(entity, xs[i])
      {
        assert (xs + ys)[i] == xs[i];
      }
      forall i | 0 <= i < |ys|
        ensures ValidEdit(entity, ys[i])
      {
        assert (xs + ys)[|xs| + i] == ys[i];
      }
    }
  }

  /** One invalid edit anywhere rejects the whole batch. */
  lemma OneBadEditRejects(entity: Entity, edits: seq<Edit>, i: int)
    requires 0 <= i < |edits| && !ValidEdit(entity, edits[i])
    ensures !ValidBatch(entity, edits)
  {
  }

  /** An accepted identifier is never the empty string, so the services' truthiness tests before it are redundant. */
  lemma ValidUUIDTruthy(v: JsValue)
    requires IsValidUUID(v)
    ensures Truthy(v) && v.Str?
  {
  }

  /** The empty string, other text, a bad digit, the unhyphenated form and non-strings are refused. */
  lemma UUIDRejected()
    ensures !IsValidUUID(Str("")) && !IsValidUUID(Str("not-a-uuid"))
    ensures !IsValidUUID(Str("123e4567e89b12d3a456426614174000"))
    ensures !IsValidUUID(Str("g23e4567-e89b-12d3-a456-426614174000"))
    ensures !IsValidUUID(Num(1.0)) && !IsValidUUID(Null) && !IsValidUUID(Undef)
  {
    var g := "g23e4567-e89b-12d3-a456-426614174000";
    assert !IsHexDigit(g[0]);
  }

  /** The amount examples: zero, negatives and non-numbers are rejected, a positive number is accepted. */
  lemma AmountExamples()
    ensures !IsValidAmount(Num(0.0)) && !IsValidAmount(Num(-20.0))
    ensures !IsValidAmount(Str("1.00")) && !IsValidAmount(Bool(true)) && !IsValidAmount(Null)
    ensures !IsValidAmount(Arr([])) && !IsValidAmount(Obj(map[]))
    ensures IsValidAmount(Num(0.01)) && IsValidAmount(Num(2.99))
  {
  }

  /** "all" is a query sentinel, yet it passes as a stored status. */
  lemma AllIsAcceptedStatus()
    ensures IsValidStatus(Str("all"))
    ensures ValidEdit(TicketEntity, Edit("status", Str("all")))
  {
  }
}
