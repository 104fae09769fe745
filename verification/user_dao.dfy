/**
  The user repository: key selection for `get`, the update-expression
  builder (which sends every value as its text), and the requests it sends
  to the store. Items come back as typed `User` views of the stored item,
  without the constructor's defaults.
 */
module UserDao {
  import opened JsValues
  import opened Options
  import opened UpdateRequests
  import opened Store
  import opened UserModel
  import UpdateExpression
  import Text
  import Validator

  /** How `get` looks a user up: a truthy key wins over a truthy username; neither means no lookup. */
  datatype UserKey = ByKey(pkey: JsValue) | ByUsername(username: JsValue) | NoKey

  function KeyOf(lookup: JsValue): (k: UserKey)
    ensures k.ByKey? <==> Truthy(Prop(lookup, "pkey"))
    ensures k.ByKey? ==> k.pkey == Prop(lookup, "pkey")
    ensures k.ByUsername? <==> !Truthy(Prop(lookup, "pkey")) && Truthy(Prop(lookup, "username"))
    ensures k.ByUsername? ==> k.username == Prop(lookup, "username")
  {
    if Truthy(Prop(lookup, "pkey")) then ByKey(Prop(lookup, "pkey"))
    else if Truthy(Prop(lookup, "username")) then ByUsername(Prop(lookup, "username"))
    else NoKey
  }

  /**
    `get`: by key, the item stored under it; by username, the first item of
    the scan with that username; a lookup that finds nothing gives nothing.
   */
  function Get(t: Table, lookup: JsValue): (r: Option<User>)
    ensures KeyOf(lookup).NoKey? ==> r.None?
    ensures KeyOf(lookup).ByKey? ==>
              var k := KeyOf(lookup).pkey;
              r.Some? <==> k.Str? && Find(t, k.s).Some?
    ensures KeyOf(lookup).ByKey? && r.Some? ==>
              r.value == UserFromItem(Find(t, KeyOf(lookup).pkey.s).value) && r.value.pkey == KeyOf(lookup).pkey
    ensures KeyOf(lookup).ByUsername? ==>
              var name := KeyOf(lookup).username;
              r.Some? <==> exists i :: 0 <= i < |t| && "username" in t[i] && t[i]["username"] == name
    ensures KeyOf(lookup).ByUsername? && r.Some? ==>
              && r.value.username == KeyOf(lookup).username
              && r.value == UserFromItem(Where(t, "username", KeyOf(lookup).username)[0])
  {
    match KeyOf(lookup)
    case ByKey(k) =>
      if !k.Str? then None
      else (match Find(t, k.s) case Some(item) => Some(UserFromItem(item)) case None => None)
    case ByUsername(name) =>
      var matches := Where(t, "username", name);
      if |matches| == 0 then None
      else
        assert matches[0] in matches;
        Some(UserFromItem(matches[0]))
    case NoKey => None
  }

  /** `create`: build the user with the constructor and put its item. */
  function Create(t: Table, init: map<string, JsValue>, nextUuid: string): (r: (Option<User>, Table))
    ensures r.0.None? ==> r.1 == t
    ensures r.0.Some? ==> r.0.value == NewUser(init, nextUuid)
    ensures r.0.Some? ==> r.0.value.pkey.Str? && Find(r.1, r.0.value.pkey.s) == Some(UserItem(r.0.value))
    ensures r.0.Some? ==> forall k :: k != r.0.value.pkey.s ==> Find(r.1, k) == Find(t, k)
  {
    var user := NewUser(init, nextUuid);
    var item := UserItem(user);
    if Storable(item) then (Some(user), Put(t, item)) else (None, t)
  }

  /** `delete` is a stub: it answers nothing and removes nothing. */
  function Delete(t: Table, lookup: JsValue): (r: (Option<User>, Table))
    ensures r.0.None? && r.1 == t
  {
    (None, t)
  }

  /** The edits as the store receives them: every value replaced by its template-literal text. */
  function AsText(edits: seq<Edit>): (r: seq<Edit>)
    ensures |r| == |edits|
    ensures forall i :: 0 <= i < |edits| ==> r[i] == Edit(edits[i].property, Str(Render(edits[i].value)))
  {
    if |edits| == 0 then []
    else AsText(edits[..|edits| - 1]) + [Edit(edits[|edits| - 1].property, Str(Render(edits[|edits| - 1].value)))]
  }

  /** The text and maps `update` sends: clauses `#p{i}=:p{i}` separated by ",", values as text. */
  method BuildUpdate(edits: seq<Edit>) returns (expression: string, names: map<string, string>, values: map<string, JsValue>)
    ensures expression == "set " + Text.Join(UpdateExpression.Clauses(edits, "="), ",")
    ensures names == UpdateExpression.NameMap(edits)
    ensures values == UpdateExpression.ValueMap(AsText(edits), false)
  {
    expression, names, values := UpdateExpression.Build(edits, "=", ",", true);
    TextValueMap(edits);
  }

  /** Filling the value map with text is filling it from the edits turned into text. */
  lemma {:induction false} TextValueMap(edits: seq<Edit>)
    ensures UpdateExpression.ValueMap(edits, true) == UpdateExpression.ValueMap(AsText(edits), false)
  {
    if |edits| > 0 {
      var n := |edits| - 1;
      assert AsText(edits)[..n] == AsText(edits[..n]);
      TextValueMap(edits[..n]);
    }
  }

  /** `update`: set the edited attributes, as text, on the item under the lookup's key. */
  function Update(t: Table, key: JsValue, edits: seq<Edit>): (r: (Option<User>, Table))
    ensures r.0.None? ==> r.1 == t
    ensures r.0.Some? <==> key.Str? && UpdateItem(t, key.s, AsText(edits)).Some?
    ensures r.0.Some? ==>
              var (t', item) := UpdateItem(t, key.s, AsText(edits)).value;
              r == (Some(UserFromItem(item)), t')
  {
    if !key.Str? then (None, t)
    else match UpdateItem(t, key.s, AsText(edits))
      case Some((t', item)) => (Some(UserFromItem(item)), t')
      case None => (None, t)
  }

  /** Every value of a valid user batch is a string, so sending it as text changes nothing. */
  lemma {:induction false} ValidBatchIsText(edits: seq<Edit>)
    requires Validator.IsValidUserUpdate(edits)
    ensures AsText(edits) == edits
  {
    forall i | 0 <= i < |edits|
      ensures AsText(edits)[i] == edits[i]
    {
      assert Validator.ValidEdit(Validator.UserEntity, edits[i]);
      RenderString(edits[i].value);
    }
  }

  /** A number edit is stored as its text, not as a number: `${1.5}` is "1.5". */
  lemma NumberStoredAsText()
    ensures AsText([Edit("role", Num(1.5))]) == [Edit("role", Str("1.5"))]
  {
    assert NumberText(1.5) == "1.5";
  }

  /** User schema names contain no digit, so a valid user batch has collision-free placeholders. */
  lemma ValidBatchDigitFree(edits: seq<Edit>)
    requires Validator.IsValidUserUpdate(edits)
    ensures UpdateExpression.DigitFreeProperties(edits)
  {
    forall i | 0 <= i < |edits|
      ensures Text.DigitFree(edits[i].property)
    {
      assert edits[i].property in UserTypes;
    }
  }
}
