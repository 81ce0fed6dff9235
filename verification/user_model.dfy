/**
 * The User record of `src/models/user.mjs`: its field setters and validators,
 * the public projection, token issuing, credential lookup, the pre-save
 * rehash and the pre-remove cascade onto the owner's tasks.
 *
 * Hashing, hash comparison and e-mail syntax are library calls; they enter
 * the model as the fields of a `Crypto` value that every caller passes in.
 */
module UserModel {
  import opened Common
  import opened Strings
  import opened Seqs
  import opened Schema
  import opened TaskModel

  datatype User = User(
    id: nat,
    name: Option<string>,
    age: int,
    email: string,
    password: string,
    tokens: seq<string>,
    avatar: Option<seq<byte>>)

  /** What `toJSON` lets out of a user. */
  datatype PublicUser = PublicUser(id: nat, name: Option<string>, age: int, email: string)

  /** The outcome of comparing a plaintext password with a stored hash. */
  datatype Verdict = Match | Mismatch | Broken(message: string)

  /** The hashing library and the e-mail syntax check. A failed hash is `None`. */
  datatype Crypto = Crypto(
    hash: string -> Option<string>,
    compare: (string, string) -> Verdict,
    isEmail: string -> bool)

  /** The keys `POST /users` reads and `PATCH /users/me` accepts. */
  const UserFields: set<string> := {"name", "age", "email", "password"}

  const NameEmpty := "Name cannot be an empty string!"
  const AgeNegative := "Age must be greater than 0"
  const EmailInvalid := "Email must be valid!"
  const PasswordHasWord := "Password cannot contain string 'password'"
  const PasswordTooShort := "Password must be at least 6 characters"
  const UnableToLogin := "Unable to login!"

  // ---------------------------------------------------------------- setters

  function SetName(j: Json): string {
    Trim(CastString(j))
  }

  function SetEmail(j: Json): string {
    ToLower(Trim(CastString(j)))
  }

  function SetPassword(j: Json): string {
    Trim(CastString(j))
  }

  // ------------------------------------------------------------- validators

  /** The name validator, applied to the trimmed value. */
  function NameError(name: string): Option<string> {
    if name == "" then Some(NameEmpty) else None
  }

  /** A name is refused exactly when it is white space only. */
  lemma NameRule(raw: Json)
    ensures NameError(SetName(raw)).None? <==> exists k :: 0 <= k < |CastString(raw)| && !IsSpace(CastString(raw)[k])
  {
    TrimEmpty(CastString(raw));
  }

  /** The age validator: only a negative age is refused. */
  function AgeError(age: int): (r: Option<string>)
    ensures r.None? <==> age >= 0
    ensures r.Some? ==> r.value == AgeNegative
  {
    if age < 0 then Some(AgeNegative) else None
  }

  /**
   * The password validator, applied to the trimmed value: the word check comes
   * first, then the length, measured as `validator.isLength` measures it.
   */
  function PasswordError(password: string): (r: Option<string>)
    ensures r.None? <==> !HasInfix(ToLower(password), "password") && DisplayLength(password) >= 7
    ensures HasInfix(ToLower(password), "password") ==> r == Some(PasswordHasWord)
    ensures !HasInfix(ToLower(password), "password") && DisplayLength(password) < 7 ==> r == Some(PasswordTooShort)
  {
    if IndexOf(ToLower(password), "password").Some? then Some(PasswordHasWord)
    else if DisplayLength(password) < 7 then Some(PasswordTooShort)
    else None
  }

  /** Presentation selectors do not make a password long enough: six letters and a selector are still too short. */
  lemma SelectorsDoNotLengthenPassword(p: string, sel: string)
    requires forall k :: 0 <= k < |sel| ==> IsPresentationSelector(sel[k])
    requires !HasInfix(ToLower(p + sel), "password")
    ensures PasswordError(p + sel).None? <==> DisplayLength(p) >= 7
  {
    DisplayLengthAppend(p, sel);
  }

  /** Any spelling of the word "password" in any letter case makes a password invalid. */
  lemma {:induction false} PasswordRejectsWordInAnyCase(pre: string, word: string, post: string)
    requires |word| == 8 && ToLower(word) == "password"
    ensures PasswordError(pre + word + post) == Some(PasswordHasWord)
  {
    var s := pre + word + post;
    var low := ToLower(s);
    assert low[|pre|..|pre| + 8] == ToLower(word) by {
      forall k | 0 <= k < 8
        ensures low[|pre|..|pre| + 8][k] == ToLower(word)[k]
      {
        assert s[|pre| + k] == word[k];
      }
    }
    assert OccursAt(low, "password", |pre|);
  }

  /** The validator of one path of a user document; `None` when the path passes. */
  function FieldError(u: User, path: string, c: Crypto): Option<string> {
    if path == "name" then
      (if u.name.Some? then NameError(u.name.value) else None)
    else if path == "age" then AgeError(u.age)
    else if path == "email" then
      (if u.email == "" then Some(RequiredMessage("email"))
       else if !c.isEmail(u.email) then Some(EmailInvalid)
       else None)
    else if path == "password" then
      (if u.password == "" then Some(RequiredMessage("password")) else PasswordError(u.password))
    else None
  }

  /** The validation errors of a user document: every cast error, and every failing path being saved. */
  function ValidateUser(u: User, paths: set<string>, castErrors: map<string, string>, c: Crypto): (errors: map<string, string>)
    ensures errors.Keys == castErrors.Keys + set p | p in paths && FieldError(u, p, c).Some?
    ensures forall p :: p in castErrors ==> errors[p] == castErrors[p]
    ensures forall p :: p in errors && p !in castErrors ==> Some(errors[p]) == FieldError(u, p, c)
  {
    map p | p in castErrors.Keys + paths && (p in castErrors || FieldError(u, p, c).Some?) ::
      if p in castErrors then castErrors[p] else FieldError(u, p, c).value
  }

  // ------------------------------------------------------------ documents

  /** `new User(req.body)`: the document the setters build and the cast errors they record. */
  function NewUser(body: Body, id: nat): (r: (User, map<string, string>))
    ensures r.0.id == id && r.0.tokens == [] && r.0.avatar == None
    ensures r.0.name == if "name" in body then Some(SetName(body["name"])) else None
    ensures "email" in body ==> r.0.email == SetEmail(body["email"])
    ensures "password" in body ==> r.0.password == SetPassword(body["password"])
    ensures "email" !in body ==> r.0.email == ""
    ensures "password" !in body ==> r.0.password == ""
    ensures "age" !in body ==> r.0.age == 0
    ensures "age" in body && CastNumber(body["age"]).Some? ==> r.0.age == CastNumber(body["age"]).value
    ensures "age" in r.1 <==> "age" in body && CastNumber(body["age"]).None?
    ensures r.1.Keys <= {"age"}
  {
    var name := if "name" in body then Some(SetName(body["name"])) else None;
    var age := if "age" in body && CastNumber(body["age"]).Some? then CastNumber(body["age"]).value else 0;
    var email := if "email" in body then SetEmail(body["email"]) else "";
    var password := if "password" in body then SetPassword(body["password"]) else "";
    var castErrors := if "age" in body && CastNumber(body["age"]).None? then map["age" := CastMessage("Number", "age")] else map[];
    (User(id, name, age, email, password, [], None), castErrors)
  }

  /** An update assigns each supplied key to the document, through that field's setter. */
  function ApplyUserUpdates(u: User, body: Body): (r: (User, map<string, string>))
    ensures r.0.(name := u.name, age := u.age, email := u.email, password := u.password) == u
    ensures "name" !in body ==> r.0.name == u.name
    ensures "age" !in body ==> r.0.age == u.age
    ensures "email" !in body ==> r.0.email == u.email
    ensures "password" !in body ==> r.0.password == u.password
    ensures "name" in body ==> r.0.name == Some(SetName(body["name"]))
    ensures "email" in body ==> r.0.email == SetEmail(body["email"])
    ensures "password" in body ==> r.0.password == SetPassword(body["password"])
    ensures "age" in body && CastNumber(body["age"]).Some? ==> r.0.age == CastNumber(body["age"]).value
    ensures "age" in r.1 <==> "age" in body && CastNumber(body["age"]).None?
    ensures r.1.Keys <= {"age"}
  {
    var name := if "name" in body then Some(SetName(body["name"])) else u.name;
    var age := if "age" in body && CastNumber(body["age"]).Some? then CastNumber(body["age"]).value else u.age;
    var email := if "email" in body then SetEmail(body["email"]) else u.email;
    var password := if "password" in body then SetPassword(body["password"]) else u.password;
    var castErrors := if "age" in body && CastNumber(body["age"]).None? then map["age" := CastMessage("Number", "age")] else map[];
    (u.(name := name, age := age, email := email, password := password), castErrors)
  }

  /** The validated paths an assignment actually changed (what the mapper marks as modified). */
  function ChangedUserPaths(before: User, after: User): (paths: set<string>)
    ensures paths <= UserFields
    ensures "name" in paths <==> before.name != after.name
    ensures "age" in paths <==> before.age != after.age
    ensures "email" in paths <==> before.email != after.email
    ensures "password" in paths <==> before.password != after.password
  {
    (if before.name != after.name then {"name"} else {})
    + (if before.age != after.age then {"age"} else {})
    + (if before.email != after.email then {"email"} else {})
    + (if before.password != after.password then {"password"} else {})
  }

  // ------------------------------------------------------------- saving

  /** The pre-save hook: the password is replaced by its hash only when it was modified. */
  function HashIfModified(doc: User, modified: set<string>, c: Crypto): (r: User)
    ensures r.(password := doc.password) == doc
    ensures "password" !in modified ==> r == doc
    ensures "password" in modified && c.hash(doc.password).Some? ==> r.password == c.hash(doc.password).value
    ensures c.hash(doc.password).None? ==> r == doc
  {
    if "password" in modified then
      match c.hash(doc.password)
      case Some(h) => doc.(password := h)
      case None => doc
    else doc
  }

  /** The lookup of a user by e-mail: the first user whose stored e-mail is `email`. */
  function FindEmail(users: seq<User>, email: string): (r: Option<nat>)
    ensures r.Some? ==> r.value < |users| && users[r.value].email == email
    ensures r.Some? ==> forall j :: 0 <= j < r.value ==> users[j].email != email
    ensures r.None? <==> forall j :: 0 <= j < |users| ==> users[j].email != email
  {
    FirstIndex((u: User) => u.email == email, users)
  }

  /** The document passes the rule of every path of the user schema. */
  predicate PassesSchema(u: User, c: Crypto) {
    && FieldError(u, "name", c).None?
    && FieldError(u, "age", c).None?
    && FieldError(u, "email", c).None?
    && FieldError(u, "password", c).None?
  }

  /** Validating every path finds nothing exactly when no cast failed and the document passes the schema. */
  lemma NoErrorsMeansPasses(u: User, castErrors: map<string, string>, c: Crypto)
    ensures ValidateUser(u, UserFields, castErrors, c) == map[] <==> castErrors == map[] && PassesSchema(u, c)
  {
    var errors := ValidateUser(u, UserFields, castErrors, c);
    if errors == map[] {
      assert castErrors.Keys <= errors.Keys;
      forall p | p in UserFields
        ensures FieldError(u, p, c).None?
      {
        assert p !in errors.Keys;
      }
    }
  }

  /**
   * `save()` of a user document next to the `others` already stored: validation of
   * every path, then the pre-save rehash of a modified password, then the unique
   * index on e-mail, which a write meets only when it writes the e-mail.
   */
  function SaveUser(others: seq<User>, doc: User, modified: set<string>, castErrors: map<string, string>, c: Crypto): (r: Result)
    ensures r.Stored? <==>
      && castErrors == map[] && PassesSchema(doc, c)
      && ("email" in modified ==> forall j :: 0 <= j < |others| ==> others[j].email != doc.email)
    ensures r.Refused? && r.error.Invalid? <==> !(castErrors == map[] && PassesSchema(doc, c))
    ensures r.Refused? && r.error.Invalid? ==> r.error.errors == ValidateUser(doc, UserFields, castErrors, c)
    ensures r.Refused? && r.error.DuplicateKey? ==> r.error.email == doc.email
    ensures r.Stored? ==> r.user == HashIfModified(doc, modified, c)
  {
    var errors := ValidateUser(doc, UserFields, castErrors, c);
    NoErrorsMeansPasses(doc, castErrors, c);
    if errors != map[] then Refused(Invalid(errors))
    else if "email" in modified && FindEmail(others, doc.email).Some? then Refused(DuplicateKey(doc.email))
    else Stored(HashIfModified(doc, modified, c))
  }

  /**
   * What a successful sign-up with `body` stores as `u`: each sent key went
   * through its setter, the age is the cast value or 0, the e-mail and password
   * were sent and pass their rules, and the password was hashed.
   */
  predicate CreatedFrom(body: Body, c: Crypto, u: User) {
    && u.name == (if "name" in body then Some(SetName(body["name"])) else None)
    && ("age" in body ==> Some(u.age) == CastNumber(body["age"]))
    && ("age" !in body ==> u.age == 0)
    && u.age >= 0
    && "email" in body && u.email == SetEmail(body["email"]) && c.isEmail(u.email)
    && "password" in body && PasswordError(SetPassword(body["password"])).None?
    && (c.hash(SetPassword(body["password"])).Some? ==> u.password == c.hash(SetPassword(body["password"])).value)
    && (c.hash(SetPassword(body["password"])).None? ==> u.password == SetPassword(body["password"]))
  }

  /** The document a sign-up builds, once it passes the schema and is hashed, is what `CreatedFrom` describes. */
  lemma SavedNewUser(body: Body, id: nat, c: Crypto)
    requires "age" in body ==> CastNumber(body["age"]).Some?
    requires PassesSchema(NewUser(body, id).0, c)
    ensures CreatedFrom(body, c, HashIfModified(NewUser(body, id).0, UserFields, c))
  {
    var doc := NewUser(body, id).0;
    assert FieldError(doc, "password", c).None?;
    assert FieldError(doc, "email", c).None? && FieldError(doc, "age", c).None?;
  }

  /**
   * What a successful update of `u` with `body` stores as `v`: the hidden fields
   * stay, each sent key went through its setter, the age is the cast value, and a
   * password that changed passed its rule and was hashed.
   */
  predicate UpdatedFrom(u: User, body: Body, c: Crypto, v: User) {
    && v.id == u.id && v.tokens == u.tokens && v.avatar == u.avatar
    && v.name == (if "name" in body then Some(SetName(body["name"])) else u.name)
    && v.email == (if "email" in body then SetEmail(body["email"]) else u.email)
    && c.isEmail(v.email)
    && ("age" !in body ==> v.age == u.age)
    && ("age" in body ==> Some(v.age) == CastNumber(body["age"]))
    && v.age >= 0
    && ("password" !in body || SetPassword(body["password"]) == u.password ==> v.password == u.password)
    && ("password" in body && SetPassword(body["password"]) != u.password ==>
          var plain := SetPassword(body["password"]);
          && PasswordError(plain).None?
          && v.password == (if c.hash(plain).Some? then c.hash(plain).value else plain))
  }

  /** The document an update builds, once it passes the schema and is rehashed, is what `UpdatedFrom` describes. */
  lemma SavedUpdate(u: User, body: Body, c: Crypto)
    requires "age" in body ==> CastNumber(body["age"]).Some?
    requires PassesSchema(ApplyUserUpdates(u, body).0, c)
    ensures var doc := ApplyUserUpdates(u, body).0;
      UpdatedFrom(u, body, c, HashIfModified(doc, ChangedUserPaths(u, doc), c))
  {
    var doc := ApplyUserUpdates(u, body).0;
    assert FieldError(doc, "password", c).None?;
    assert FieldError(doc, "email", c).None? && FieldError(doc, "age", c).None?;
  }

  /**
   * An update of the stored user `u`, next to the `others`: the body's keys are
   * assigned through their setters, then the whole document is saved.
   */
  function UpdateUser(others: seq<User>, u: User, body: Body, c: Crypto): (r: Result)
    ensures r.Stored? <==>
      var doc := ApplyUserUpdates(u, body).0;
      && ("age" in body ==> CastNumber(body["age"]).Some?)
      && PassesSchema(doc, c)
      && (doc.email != u.email ==> forall j :: 0 <= j < |others| ==> others[j].email != doc.email)
    ensures r.Stored? ==> UpdatedFrom(u, body, c, r.user)
  {
    var (doc, castErrors) := ApplyUserUpdates(u, body);
    var paths := ChangedUserPaths(u, doc);
    var r := SaveUser(others, doc, paths, castErrors, c);
    if r.Stored? then
      SavedUpdate(u, body, c);
      r
    else r
  }

  datatype Result = Stored(user: User) | Refused(error: SaveError)

  // ------------------------------------------------------------ projection

  /** `toJSON`: the user without `password`, `tokens` and `avatar`. */
  function ToJSON(u: User): (r: PublicUser)
    ensures r.id == u.id && r.name == u.name && r.age == u.age && r.email == u.email
  {
    PublicUser(u.id, u.name, u.age, u.email)
  }

  /** Two users look the same from outside exactly when they differ at most in the hidden fields. */
  lemma ToJSONHidesExactlySecrets(u: User, v: User)
    ensures ToJSON(u) == ToJSON(v) <==> u.(password := v.password, tokens := v.tokens, avatar := v.avatar) == v
  {
  }

  // ---------------------------------------------------------------- tokens

  /** `generateToken`: the new token goes at the end; earlier sessions stay. */
  function GenerateToken(u: User, token: string): (r: User)
    ensures |r.tokens| == |u.tokens| + 1
    ensures r.tokens[..|u.tokens|] == u.tokens && r.tokens[|u.tokens|] == token
    ensures r.(tokens := u.tokens) == u
  {
    u.(tokens := u.tokens + [token])
  }

  /** The token list after logging out with `presented`. */
  function RevokeToken(tokens: seq<string>, presented: string): (r: seq<string>)
    ensures presented !in r
    ensures forall k :: 0 <= k < |tokens| && tokens[k] != presented ==> tokens[k] in r
    ensures forall k :: 0 <= k < |r| ==> r[k] in tokens
  {
    Filter(t => t != presented, tokens)
  }

  /** Logging out keeps every other token as often as it was there, in the same order. */
  lemma RevokeTokenKeepsOthers(tokens: seq<string>, presented: string, other: string)
    requires other != presented
    ensures Count(RevokeToken(tokens, presented), other) == Count(tokens, other)
    ensures Count(RevokeToken(tokens, presented), presented) == 0
    ensures forall a, b :: tokens == a + b ==> RevokeToken(tokens, presented) == RevokeToken(a, presented) + RevokeToken(b, presented)
  {
    FilterCount(t => t != presented, tokens, other);
    FilterCount(t => t != presented, tokens, presented);
    forall a, b | tokens == a + b
      ensures RevokeToken(tokens, presented) == RevokeToken(a, presented) + RevokeToken(b, presented)
    {
      FilterAppend(t => t != presented, a, b);
    }
  }

  /** Logging out with a token that is not in the list changes nothing. */
  lemma RevokeAbsentToken(tokens: seq<string>, presented: string)
    requires presented !in tokens
    ensures RevokeToken(tokens, presented) == tokens
  {
    FilterAll(t => t != presented, tokens);
  }

  // ------------------------------------------------------------ credentials

  /** What `findByCredentials` hands back: the index of the user, or an error payload. */
  datatype Credentials = Found(index: nat) | LoginError(error: string)

  /** `findByCredentials(email, password)`. */
  function FindByCredentials(users: seq<User>, email: string, password: string, c: Crypto): (r: Credentials)
    ensures r.Found? ==> r.index < |users| && users[r.index].email == email
    ensures r.Found? ==> c.compare(password, users[r.index].password) == Match
    ensures r.Found? <==> exists j :: 0 <= j < |users| && users[j].email == email && c.compare(password, users[j].password) == Match && FindEmail(users, email) == Some(j)
    ensures (forall j :: 0 <= j < |users| ==> users[j].email != email) ==> r == LoginError(UnableToLogin)
    ensures FindEmail(users, email).Some? && c.compare(password, users[FindEmail(users, email).value].password) == Mismatch ==> r == LoginError(UnableToLogin)
  {
    match FindEmail(users, email)
    case None => LoginError(UnableToLogin)
    case Some(i) =>
      match c.compare(password, users[i].password)
      case Match => Found(i)
      case Mismatch => LoginError(UnableToLogin)
      case Broken(message) => LoginError(message)
  }

  // ---------------------------------------------------------------- cascade

  /** The pre-remove hook: every task the removed user owns is deleted with them. */
  function DeleteTasksOf(tasks: seq<Task>, id: nat): (r: seq<Task>)
    ensures forall k :: 0 <= k < |r| ==> r[k].owner != id && r[k] in tasks
    ensures forall k :: 0 <= k < |tasks| && tasks[k].owner != id ==> tasks[k] in r
  {
    Filter((t: Task) => t.owner != id, tasks)
  }

  /** The cascade keeps the surviving tasks in store order, each as often as it was stored. */
  lemma DeleteTasksOfKeepsOrder(a: seq<Task>, b: seq<Task>, id: nat, x: Task)
    ensures DeleteTasksOf(a + b, id) == DeleteTasksOf(a, id) + DeleteTasksOf(b, id)
    ensures Count(DeleteTasksOf(a, id), x) == if x.owner != id then Count(a, x) else 0
  {
    FilterAppend((t: Task) => t.owner != id, a, b);
    FilterCount((t: Task) => t.owner != id, a, x);
  }
}
