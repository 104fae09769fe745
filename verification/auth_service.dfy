/**
  The authentication service: a guard in front of password hashing, and
  plain forwarding of password checks and token operations to the
  authentication repository, whose operations are parameters here.
 */
module AuthService {
  import opened JsValues
  import opened Options
  import opened Validator

  /** What decoding a token gives: the verified payload, or a thrown error. */
  datatype Decoded = Payload(claims: JsValue) | Threw

  /** `hashPassword`: no hashing unless the object carries a truthy, valid password. */
  function HashPassword(user: JsValue, repoHash: JsValue -> JsValue): (r: Option<JsValue>)
    ensures r.Some? <==> IsValidPassword(Prop(user, "password"))
    ensures r.Some? ==> r.value == repoHash(user)
  {
    var password := Prop(user, "password");
    if !Truthy(password) || !IsValidPassword(password) then None
    else Some(repoHash(user))
  }

  /** `validatePassword`: the stored hash goes first, the sign-in password second. */
  function ValidatePassword(dbUser: JsValue, signIn: JsValue, repoVerify: (JsValue, JsValue) -> bool): bool
  {
    repoVerify(Prop(dbUser, "password"), Prop(signIn, "password"))
  }

  /** `generateToken`: the repository's token for the object, unchanged. */
  function GenerateToken(user: JsValue, repoSign: JsValue -> JsValue): JsValue
  {
    repoSign(user)
  }

  /** `decodeToken`: the repository's decoding of the header, unchanged. */
  function DecodeToken(header: JsValue, repoDecode: JsValue -> Decoded): Decoded
  {
    repoDecode(header)
  }

  /** A falsy password is refused before the validator is consulted, and the refusal never hashes. */
  lemma HashRefusals(user: JsValue, repoHash: JsValue -> JsValue, other: JsValue -> JsValue)
    ensures !Truthy(Prop(user, "password")) ==> HashPassword(user, repoHash).None?
    ensures HashPassword(user, repoHash).None? <==> HashPassword(user, other).None?
    ensures HashPassword(user, repoHash).Some? ==> Prop(user, "password").Str? && Prop(user, "password").s != ""
  {
  }
}

/**
  The authentication repository, idealised: hashing and token signing are
  parameters (`bcrypt`, `sign`, `verify`), and only the way the repository
  wires them together is modelled. It exists here to state the round trips
  the service takes part in.
 */
module AuthRepository {
  import opened JsValues
  import opened Options
  import opened AuthService

  /** `hashPassword`: the same object with its password replaced by the hash. */
  function Hashed(user: JsValue, bcrypt: string -> string): (r: JsValue)
    ensures user.Obj? && Prop(user, "password").Str? ==> Prop(r, "password") == Str(bcrypt(Prop(user, "password").s))
    ensures forall f :: f != "password" ==> Prop(r, f) == Prop(user, f)
  {
    if user.Obj? && Prop(user, "password").Str? then
      Obj(user.fields["password" := Str(bcrypt(Prop(user, "password").s))])
    else user
  }

  /** `verify(hashedPass, signInText)`: `compare(plain, hash)`; anything but two strings fails. */
  function Verify(hashed: JsValue, text: JsValue, compare: (string, string) -> bool): (ok: bool)
    ensures ok ==> hashed.Str? && text.Str?
  {
    hashed.Str? && text.Str? && compare(text.s, hashed.s)
  }

  /** The claims a token carries: only the key and the role. */
  function Claims(user: JsValue): (c: JsValue)
    ensures Prop(c, "pkey") == Prop(user, "pkey") && Prop(c, "role") == Prop(user, "role")
  {
    Obj(map["pkey" := Prop(user, "pkey"), "role" := Prop(user, "role")])
  }

  /** `generateToken`: the signed claims. */
  function Sign(user: JsValue, sign: JsValue -> string): JsValue
  {
    Str(sign(Claims(user)))
  }

  /** The index of the first space of `s`, or `|s|` when there is none. */
  function SpaceIndex(s: string): (i: nat)
    ensures i <= |s|
    ensures forall j :: 0 <= j < i ==> s[j] != ' '
    ensures i < |s| ==> s[i] == ' '
  {
    if |s| == 0 || s[0] == ' ' then 0 else 1 + SpaceIndex(s[1..])
  }

  /** `s.split(" ")[1]`: the text between the first and the second space; none without a space. */
  function SecondWord(s: string): (r: Option<string>)
    ensures r.Some? <==> ' ' in s
    ensures r.Some? ==> ' ' !in r.value
  {
    var i := SpaceIndex(s);
    if i == |s| then None
    else
      var rest := s[i + 1..];
      var w := rest[..SpaceIndex(rest)];
      assert forall j :: 0 <= j < |w| ==> w[j] != ' ';
      Some(w)
  }

  /** An authorization header "Bearer <token>" yields its token. */
  lemma {:induction false} BearerToken(token: string)
    requires ' ' !in token
    ensures SecondWord("Bearer " + token) == Some(token)
  {
    var s := "Bearer " + token;
    assert s[..6] == "Bearer";
    assert forall k :: 0 <= k < 6 ==> s[k] != ' ';
    assert s[6] == ' ';
    assert SpaceIndex(s) == 6;
    var rest := s[7..];
    assert rest == token;
    assert forall k :: 0 <= k < |rest| ==> rest[k] in token;
    assert SpaceIndex(rest) == |rest|;
    assert rest[..|rest|] == token;
  }

  /** `decodeToken`: verify the second word of the header; a header without one, or not a string, throws. */
  function Decode(header: JsValue, verify: string -> Decoded): Decoded
  {
    if !header.Str? then Threw
    else match SecondWord(header.s)
      case None => Threw
      case Some(token) => verify(token)
  }

  /** A header that is not a string, or holds no space, makes decoding throw before any verification. */
  lemma DecodeRefusals(header: JsValue, verify: string -> Decoded)
    ensures !header.Str? ==> Decode(header, verify) == Threw
    ensures header.Str? && ' ' !in header.s ==> Decode(header, verify) == Threw
    ensures header.Str? && ' ' in header.s ==> Decode(header, verify) == verify(SecondWord(header.s).value)
  {
  }

  /**
    A token signed by the repository and sent back as "Bearer <token>"
    decodes to exactly the key and role claims, given a JWT whose
    verification returns what was signed and whose tokens hold no space.
   */
  lemma SignThenDecode(user: JsValue, sign: JsValue -> string, verify: string -> Decoded)
    requires forall c :: verify(sign(c)) == Payload(c)
    requires forall c :: ' ' !in sign(c)
    ensures Sign(user, sign).Str?
    ensures Decode(Str("Bearer " + Sign(user, sign).s), verify) == Payload(Claims(user))
  {
    BearerToken(sign(Claims(user)));
  }

  /**
    With a hash whose comparison accepts exactly the hashed password, a
    password hashed by the service validates exactly against the same
    password at sign-in.
   */
  lemma HashThenValidate(
    user: JsValue, attempt: JsValue,
    bcrypt: string -> string, compare: (string, string) -> bool,
    repoHash: JsValue -> JsValue, repoVerify: (JsValue, JsValue) -> bool)
    requires forall u :: repoHash(u) == Hashed(u, bcrypt)
    requires forall h, p :: repoVerify(h, p) == Verify(h, p, compare)
    requires forall p, h :: compare(p, h) <==> h == bcrypt(p)
    requires forall a, b :: bcrypt(a) == bcrypt(b) ==> a == b
    requires HashPassword(user, repoHash).Some?
    ensures ValidatePassword(HashPassword(user, repoHash).value, attempt, repoVerify)
            <==> Prop(attempt, "password") == Prop(user, "password")
  {
    var stored := HashPassword(user, repoHash).value;
    assert Prop(stored, "password") == Str(bcrypt(Prop(user, "password").s));
  }

  /** Passing the sign-in password first and the hash second would reject the right password. */
  lemma SwappedArgumentsReject(
    user: JsValue, bcrypt: string -> string, compare: (string, string) -> bool,
    repoHash: JsValue -> JsValue, repoVerify: (JsValue, JsValue) -> bool)
    requires forall u :: repoHash(u) == Hashed(u, bcrypt)
    requires forall h, p :: repoVerify(h, p) == Verify(h, p, compare)
    requires forall p, h :: compare(p, h) <==> h == bcrypt(p)
    requires forall p :: bcrypt(bcrypt(p)) != p
    requires HashPassword(user, repoHash).Some?
    ensures !repoVerify(Prop(user, "password"), Prop(HashPassword(user, repoHash).value, "password"))
  {
    var stored := HashPassword(user, repoHash).value;
    assert Prop(stored, "password") == Str(bcrypt(Prop(user, "password").s));
  }
}
