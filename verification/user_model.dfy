/**
  The user entity: its field schema and the `User` constructor, which
  defaults the key and the role and copies the credentials unchanged.
 */
module UserModel {
  import opened JsValues

  /** Field name to the primitive type `typeof` must report for it. */
  const UserTypes: map<string, string> := map[
    "pkey" := "string",
    "role" := "string",
    "username" := "string",
    "password" := "string"
  ]

  datatype User = User(pkey: JsValue, role: JsValue, username: JsValue, password: JsValue)

  /** The stored item: one attribute per schema field. */
  function UserItem(u: User): (item: map<string, JsValue>)
    ensures item.Keys == UserTypes.Keys
  {
    map["pkey" := u.pkey, "role" := u.role, "username" := u.username, "password" := u.password]
  }

  /** The value a destructuring default supplies for `field`; `nextUuid` is what `uuidv4()` would return. */
  function UserDefault(field: string, nextUuid: string): JsValue
  {
    if field == "pkey" then Str(nextUuid)
    else if field == "role" then Str("employee")
    else Undef
  }

  /** `new User(init)`: defaults apply to undefined fields only. */
  function NewUser(init: map<string, JsValue>, nextUuid: string): (u: User)
    ensures forall f :: f in UserTypes && Field(init, f) != Undef ==> UserItem(u)[f] == init[f]
    ensures forall f :: f in UserTypes && Field(init, f) == Undef ==> UserItem(u)[f] == UserDefault(f, nextUuid)
  {
    var pkey := Field(init, "pkey");
    var role := Field(init, "role");
    User(
      if pkey.Undef? then Str(nextUuid) else pkey,
      if role.Undef? then Str("employee") else role,
      Field(init, "username"),
      Field(init, "password"))
  }

  /**
    A typed view of a raw stored item, without running the constructor: the
    attributes are read as they are, and a missing one reads as undefined.
   */
  function UserFromItem(item: map<string, JsValue>): (u: User)
    ensures forall f :: f in UserTypes ==> UserItem(u)[f] == Field(item, f)
  {
    User(Field(item, "pkey"), Field(item, "role"), Field(item, "username"), Field(item, "password"))
  }

  /** A user built from credentials alone is an employee with a generated key. */
  lemma MinimalUser(username: JsValue, password: JsValue, nextUuid: string)
    requires username != Undef && password != Undef
    ensures NewUser(map["username" := username, "password" := password], nextUuid)
         == User(Str(nextUuid), Str("employee"), username, password)
  {
    var u := NewUser(map["username" := username, "password" := password], nextUuid);
    assert UserItem(u)["pkey"] == Str(nextUuid);
    assert UserItem(u)["role"] == Str("employee");
  }

  /** Reading back the item a user was stored as gives the same user. */
  lemma {:induction false} UserItemRoundTrip(u: User)
    ensures UserFromItem(UserItem(u)) == u
  {
    var v := UserFromItem(UserItem(u));
    assert UserItem(v)["pkey"] == u.pkey;
    assert UserItem(v)["role"] == u.role;
  }

  /** The schema has exactly four fields, all strings. */
  lemma UserSchemaShape()
    ensures UserTypes.Keys == {"pkey", "role", "username", "password"}
    ensures forall f :: f in UserTypes ==> UserTypes[f] == "string"
  {
  }
}
