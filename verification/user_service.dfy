/**
  The user service: lookup validation, creation guarded by a lookup for an
  existing user, and guarded update. As for tickets, each operation answers
  `Some` or `None` ("undefined") with the table afterwards, and a refused
  request leaves the table as it was.
 */
module UserService {
  import opened JsValues
  import opened Options
  import opened UpdateRequests
  import opened Store
  import opened UserModel
  import opened Validator
  import UserDao

  /** The guards of `get`: a key or a username, and each one given is well formed. */
  predicate GetAccepted(lookup: JsValue)
  {
    var pkey := Prop(lookup, "pkey");
    var username := Prop(lookup, "username");
    && (Truthy(pkey) || Truthy(username))
    && (Truthy(pkey) ==> IsValidUUID(pkey))
    && (Truthy(username) ==> IsValidUsername(username))
  }

  /** `get`. */
  function Get(t: Table, lookup: JsValue): (r: Option<User>)
    ensures r.Some? ==> GetAccepted(lookup)
    ensures GetAccepted(lookup) ==> r == UserDao.Get(t, lookup)
  {
    var pkey := Prop(lookup, "pkey");
    var username := Prop(lookup, "username");
    if !(Truthy(pkey) || Truthy(username)) then None
    else if Truthy(pkey) && !IsValidUUID(pkey) then None
    else if Truthy(username) && !IsValidUsername(username) then None
    else UserDao.Get(t, lookup)
  }

  /** `read` forwards whatever it is given and answers every stored user. */
  function Read(t: Table, lookup: JsValue): (r: Option<seq<Item>>)
    ensures r.Some? && forall x :: x in r.value <==> x in t
  {
    Some(t)
  }

  /** The guards of `create` on the credentials. */
  predicate CredentialsAccepted(init: JsValue)
  {
    IsValidUsername(Prop(init, "username")) && IsValidPassword(Prop(init, "password"))
  }

  /** `create`: refused when the credentials are malformed or when the object, used as a lookup, finds a user. */
  function Create(t: Table, init: JsValue, nextUuid: string): (r: (Option<User>, Table))
    ensures r.0.None? ==> r.1 == t
    ensures r.0.Some? ==> CredentialsAccepted(init) && UserDao.Get(t, init).None?
    ensures CredentialsAccepted(init) && UserDao.Get(t, init).None? ==>
              r == UserDao.Create(t, OwnFields(init), nextUuid)
    ensures r.0.Some? ==>
              r.0.value.username == Prop(init, "username") && r.0.value.password == Prop(init, "password")
  {
    var username := Prop(init, "username");
    var password := Prop(init, "password");
    if !Truthy(username) || !Truthy(password) then (None, t)
    else if !IsValidUsername(username) then (None, t)
    else if !IsValidPassword(password) then (None, t)
    else if UserDao.Get(t, init).Some? then (None, t)
    else
      var r := UserDao.Create(t, OwnFields(init), nextUuid);
      assert r.0.Some? ==> UserItem(r.0.value)["username"] == username;
      assert r.0.Some? ==> UserItem(r.0.value)["password"] == password;
      r
  }

  /** `update`: a UUID key, a valid batch and an existing user are needed before the edits reach the store. */
  function Update(t: Table, lookup: JsValue, edits: seq<Edit>): (r: (Option<User>, Table))
    ensures r.0.None? ==> r.1 == t
    ensures r.0.Some? ==>
              && Truthy(Prop(lookup, "pkey")) && IsValidUUID(Prop(lookup, "pkey"))
              && IsValidUserUpdate(edits)
              && Find(t, Prop(lookup, "pkey").s).Some?
    ensures Truthy(Prop(lookup, "pkey")) && IsValidUUID(Prop(lookup, "pkey")) && IsValidUserUpdate(edits)
            && Find(t, Prop(lookup, "pkey").s).Some? ==>
              r == UserDao.Update(t, Prop(lookup, "pkey"), edits)
  {
    var pkey := Prop(lookup, "pkey");
    if !Truthy(pkey) || !IsValidUUID(pkey) then (None, t)
    else if !IsValidUserUpdate(edits) then (None, t)
    else if UserDao.Get(t, Single("pkey", pkey)).None? then (None, t)
    else UserDao.Update(t, pkey, edits)
  }

  /** `delete` is not supported: it answers nothing and leaves the table alone. */
  function Delete(t: Table, lookup: JsValue): (r: (Option<User>, Table))
    ensures r.0.None? && r.1 == t
  {
    (None, t)
  }

  /** Without a supplied key, a created user's username was not yet taken. */
  lemma CreateUniqueWithoutKey(t: Table, init: JsValue, nextUuid: string, i: int)
    requires Create(t, init, nextUuid).0.Some?
    requires !Truthy(Prop(init, "pkey"))
    requires 0 <= i < |t|
    ensures "username" in t[i] ==> t[i]["username"] != Prop(init, "username")
  {
    assert UserDao.KeyOf(init).ByUsername?;
  }

  /**
    A supplied key replaces the username check: a create under a new key
    succeeds even when the username is already taken.
   */
  lemma CreateWithKeySkipsUsernameCheck(t: Table, init: JsValue, nextUuid: string, k: string)
    requires CredentialsAccepted(init)
    requires Prop(init, "pkey") == Str(k) && k != ""
    requires Find(t, k).None?
    ensures Create(t, init, nextUuid).0.Some?
    ensures Create(t, init, nextUuid).0.value.pkey == Str(k)
  {
    var u := NewUser(OwnFields(init), nextUuid);
    assert UserItem(u)["pkey"] == Str(k);
  }

  /** The created user's role is the one supplied, whatever it is; only a missing role becomes "employee". */
  lemma CreateKeepsSuppliedRole(t: Table, init: JsValue, nextUuid: string)
    requires Create(t, init, nextUuid).0.Some?
    ensures Create(t, init, nextUuid).0.value.role == (if Prop(init, "role").Undef? then Str("employee") else Prop(init, "role"))
  {
    var u := Create(t, init, nextUuid).0.value;
    assert UserItem(u)["role"] == (if Prop(init, "role").Undef? then Str("employee") else Prop(init, "role"));
  }

  /** A registration body that asks for the manager role gets it. */
  lemma SelfAssignedManager(t: Table, init: JsValue, nextUuid: string)
    requires Create(t, init, nextUuid).0.Some?
    requires Prop(init, "role") == Str("manager")
    ensures Create(t, init, nextUuid).0.value.role == Str("manager")
  {
    CreateKeepsSuppliedRole(t, init, nextUuid);
  }

  /** A successful update stores each edited value unchanged: a valid batch holds only strings. */
  lemma UpdateWritesEdits(t: Table, lookup: JsValue, edits: seq<Edit>, i: int)
    requires 0 <= i < |edits|
    ensures Update(t, lookup, edits).0.Some? ==>
              var stored := Find(Update(t, lookup, edits).1, Prop(lookup, "pkey").s);
              stored.Some? && edits[i].property in stored.value && stored.value[edits[i].property] == edits[i].value
  {
    if Update(t, lookup, edits).0.Some? {
      var key := Prop(lookup, "pkey");
      UserDao.ValidBatchIsText(edits);
      assert Update(t, lookup, edits) == UserDao.Update(t, key, edits);
      UpdateItemSets(t, key.s, edits, i);
    }
  }
}
