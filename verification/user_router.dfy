/**
 * The handlers of `src/routers/user.mjs`, each a pure function from the
 * request and the store to the response and the new store.
 *
 * Protected handlers take the caller's id `me` and the presented bearer
 * token and require `Authenticated`, which is what the authentication
 * middleware guarantees. Token signing is outside the model: the freshly
 * signed token is a parameter, as is the image re-encoder.
 */
module UserRouter {
  import opened Common
  import opened Strings
  import opened Seqs
  import opened Schema
  import opened TaskModel
  import opened UserModel
  import opened Database

  const MaxUploadBytes := 1000000
  const NotAnImage := "File must be an image!"
  const FileTooLarge := "File too large"
  const DuplicateEmail := "A user with this email already exists!"
  const LoggedOut := "Successfully Logged Out..."
  const LoggedOutAll := "Successfully logged out of all devices..."
  const AvatarUploaded := "Profile picture uploaded successfully..."
  const AvatarDeleted := "Profile picture deleted successfully..."
  const AvatarMissing := "Couldn't fetch user avatar..."

  // ------------------------------------------------------------ upload filter

  /** The alternatives of the upload filter's pattern; the last one is empty. */
  predicate IsImageExtension(e: string) {
    e == "jpg" || e == "jpeg" || e == "png" || e == "gif" || e == "bmp" || e == ""
  }

  /** The upload pattern matches at position `k`: a dot there, then one of the extensions (or nothing) up to the end. */
  ghost predicate PatternAt(name: string, k: int) {
    0 <= k < |name| && name[k] == '.' && IsImageExtension(name[k + 1..])
  }

  /** The upload filter's pattern finds a match at some position of the name. */
  ghost predicate MatchesImagePattern(name: string) {
    exists k :: PatternAt(name, k)
  }

  predicate EndsWith(s: string, suffix: string) {
    |suffix| <= |s| && s[|s| - |suffix|..] == suffix
  }

  /** Ending in a dot and an image extension is a match of the pattern. */
  lemma DotSuffixMatches(name: string, d: string)
    requires |d| >= 1 && d[0] == '.' && IsImageExtension(d[1..]) && EndsWith(name, d)
    ensures MatchesImagePattern(name)
  {
    var k := |name| - |d|;
    assert name[k..] == d;
    assert name[k + 1..] == d[1..];
    assert PatternAt(name, k);
  }

  /** A match of the pattern sits at the end of the name. */
  lemma MatchIsDotSuffix(name: string, k: int)
    requires PatternAt(name, k)
    ensures EndsWith(name, "." + name[k + 1..])
  {
    assert name[k..] == [name[k]] + name[k + 1..];
  }

  /** The predicate the upload filter evaluates: the name ends in one of the dotted extensions. */
  predicate HasImageSuffix(name: string) {
    || EndsWith(name, ".jpg") || EndsWith(name, ".jpeg") || EndsWith(name, ".png")
    || EndsWith(name, ".gif") || EndsWith(name, ".bmp") || EndsWith(name, ".")
  }

  lemma MatchHasImageSuffix(name: string, k: int)
    requires PatternAt(name, k)
    ensures HasImageSuffix(name)
  {
    MatchIsDotSuffix(name, k);
    var e := name[k + 1..];
    if e == "jpg" { assert "." + e == ".jpg"; }
    else if e == "jpeg" { assert "." + e == ".jpeg"; }
    else if e == "png" { assert "." + e == ".png"; }
    else if e == "gif" { assert "." + e == ".gif"; }
    else if e == "bmp" { assert "." + e == ".bmp"; }
    else { assert "." + e == "."; }
  }

  lemma ImageSuffixMatches(name: string)
    requires HasImageSuffix(name)
    ensures MatchesImagePattern(name)
  {
    if EndsWith(name, ".jpg") { DotSuffixMatches(name, ".jpg"); }
    else if EndsWith(name, ".jpeg") { DotSuffixMatches(name, ".jpeg"); }
    else if EndsWith(name, ".png") { DotSuffixMatches(name, ".png"); }
    else if EndsWith(name, ".gif") { DotSuffixMatches(name, ".gif"); }
    else if EndsWith(name, ".bmp") { DotSuffixMatches(name, ".bmp"); }
    else { DotSuffixMatches(name, "."); }
  }

  /** The pattern matches exactly the names with an image suffix. */
  lemma ImagePatternIsSuffix(name: string)
    ensures MatchesImagePattern(name) <==> HasImageSuffix(name)
  {
    if MatchesImagePattern(name) {
      var k :| PatternAt(name, k);
      MatchHasImageSuffix(name, k);
    }
    if HasImageSuffix(name) {
      ImageSuffixMatches(name);
    }
  }

  /** multer's `fileFilter`: `None` lets the file through. */
  function FileFilter(name: string): (r: Option<string>)
    ensures r.None? <==> MatchesImagePattern(name)
    ensures r.Some? ==> r.value == NotAnImage
  {
    ImagePatternIsSuffix(name);
    if HasImageSuffix(name) then None
    else Some(NotAnImage)
  }

  // -------------------------------------------------------------- sign up

  /** The registration pre-check: a stored e-mail equals the body's e-mail string exactly as sent, untrimmed and not lower-cased. */
  predicate EmailTaken(users: seq<User>, body: Body) {
    "email" in body && body["email"].JStr? && FindEmail(users, body["email"].str).Some?
  }

  /** `POST /users`. */
  function Register(s: Store, body: Body, c: Crypto, token: string): (o: Outcome)
    ensures EmailTaken(s.users, body) ==> o == Outcome(Response(400, Text(DuplicateEmail)), s)
    ensures o.response.status == 201 || o.response.status == 400
    ensures o.response.status == 400 ==> o.store == s
    ensures o.response.status == 201 <==>
      var doc := NewUser(body, s.nextId).0;
      && !EmailTaken(s.users, body)
      && ("age" in body ==> CastNumber(body["age"]).Some?)
      && PassesSchema(doc, c)
      && forall j :: 0 <= j < |s.users| ==> s.users[j].email != doc.email
    ensures o.response.status == 201 ==>
      && |o.store.users| == |s.users| + 1
      && o.store.users[..|s.users|] == s.users
      && o.store.tasks == s.tasks
      && o.store.nextId == s.nextId + 1
    ensures o.response.status == 201 ==>
      var u := o.store.users[|s.users|];
      && u.id == s.nextId && u.tokens == [token] && u.avatar == None
      && o.response.payload == Session(ToJSON(u), token)
      && CreatedFrom(body, c, u)
      && (forall j :: 0 <= j < |s.users| ==> s.users[j].email != u.email)
  {
    if EmailTaken(s.users, body) then Outcome(Response(400, Text(DuplicateEmail)), s)
    else
      var (doc, castErrors) := NewUser(body, s.nextId);
      match SaveUser(s.users, doc, UserFields, castErrors, c)
      case Refused(e) => Outcome(Response(400, SaveFailed(e)), s)
      case Stored(saved) =>
        SavedNewUser(body, s.nextId, c);
        var u := GenerateToken(saved, token);
        var users := s.users + [u];
        assert users[..|s.users|] == s.users;
        Outcome(Response(201, Session(ToJSON(u), token)), s.(users := users, nextId := s.nextId + 1))
  }

  // ---------------------------------------------------------------- log in

  /** `POST /users/login`. */
  function Login(s: Store, email: string, password: string, c: Crypto, token: string): (o: Outcome)
    ensures FindByCredentials(s.users, email, password, c).LoginError? ==>
      o == Outcome(Response(400, ErrorObject(FindByCredentials(s.users, email, password, c).error)), s)
    ensures o.response.status == 200 <==>
      FindEmail(s.users, email).Some? && c.compare(password, s.users[FindEmail(s.users, email).value].password) == Match
    ensures o.response.status == 200 ==>
      var i := FindEmail(s.users, email).value;
      && OnlyUserChanged(s, o.store, i)
      && o.store.users[i] == s.users[i].(tokens := s.users[i].tokens + [token])
      && o.response.payload == Session(ToJSON(s.users[i]), token)
  {
    match FindByCredentials(s.users, email, password, c)
    case LoginError(e) => Outcome(Response(400, ErrorObject(e)), s)
    case Found(i) =>
      var u := GenerateToken(s.users[i], token);
      Outcome(Response(200, Session(ToJSON(u), token)), s.(users := s.users[i := u]))
  }

  /**
   * Signing up and then logging in with the same credentials works: when the
   * e-mail was sent in the form it is stored in, and the hash of the password
   * matches that password, the login answers 200 and both the sign-up token and
   * the login token authenticate the new user.
   */
  lemma RegisterThenLogin(s: Store, body: Body, c: Crypto, t1: string, t2: string)
    requires Valid(s)
    requires Register(s, body, c, t1).response.status == 201
    requires "email" in body && body["email"].JStr? && SetEmail(body["email"]) == body["email"].str
    requires "password" in body && c.hash(SetPassword(body["password"])).Some?
    requires c.compare(SetPassword(body["password"]), c.hash(SetPassword(body["password"])).value) == Match
    ensures var r := Register(s, body, c, t1).store;
      var o := Login(r, body["email"].str, SetPassword(body["password"]), c, t2);
      && o.response.status == 200
      && Authenticated(o.store, s.nextId, t1)
      && Authenticated(o.store, s.nextId, t2)
  {
    var r := Register(s, body, c, t1).store;
    var email, plain := body["email"].str, SetPassword(body["password"]);
    var u := r.users[|s.users|];
    assert r.users == s.users + [u] && u.id == s.nextId && u.tokens == [t1]
        && u.email == email && u.password == c.hash(plain).value
        && forall j :: 0 <= j < |s.users| ==> s.users[j].email != email;
    LoginAsNewest(s, r, u, email, plain, c, t2);
  }

  /** Logging in as the user last added to `s`, whose id is fresh and whose e-mail no earlier user has. */
  lemma LoginAsNewest(s: Store, r: Store, u: User, email: string, plain: string, c: Crypto, t2: string)
    requires Valid(s)
    requires r.users == s.users + [u] && u.id == s.nextId && u.email == email
    requires forall j :: 0 <= j < |s.users| ==> s.users[j].email != email
    requires c.compare(plain, u.password) == Match
    ensures var o := Login(r, email, plain, c, t2);
      && o.response.status == 200
      && o.store.users == s.users + [u.(tokens := u.tokens + [t2])]
      && forall t :: t in u.tokens || t == t2 ==> Authenticated(o.store, s.nextId, t)
  {
    var i := |s.users|;
    assert FindEmail(r.users, email) == Some(i) by {
      assert |r.users| == i + 1 && r.users[i] == u;
      assert forall j :: 0 <= j < i ==> r.users[j] == s.users[j];
    }
    var o := Login(r, email, plain, c, t2);
    var v := u.(tokens := u.tokens + [t2]);
    assert o.store.users == s.users + [v] by {
      assert |o.store.users| == |r.users|;
      assert forall j :: 0 <= j < i ==> o.store.users[j] == r.users[j] == s.users[j];
    }
    assert FindUser(o.store.users, s.nextId) == Some(i) by {
      assert forall j :: 0 <= j < i ==> o.store.users[j].id == s.users[j].id < s.nextId;
    }
  }

  /** The same error answers an unknown e-mail and a wrong password: logins do not reveal accounts. */
  lemma LoginHidesWhichFieldWasWrong(s: Store, s': Store, email: string, password: string, c: Crypto, token: string)
    requires forall j :: 0 <= j < |s.users| ==> s.users[j].email != email
    requires FindEmail(s'.users, email).Some?
    requires c.compare(password, s'.users[FindEmail(s'.users, email).value].password) == Mismatch
    ensures Login(s, email, password, c, token).response == Login(s', email, password, c, token).response
    ensures Login(s, email, password, c, token).response == Response(400, ErrorObject(UnableToLogin))
  {
  }

  // --------------------------------------------------------------- log out

  /** `POST /users/logout`. */
  function Logout(s: Store, me: nat, token: string): (o: Outcome)
    requires Authenticated(s, me, token)
    ensures o.response == Response(200, Text(LoggedOut))
    ensures OnlyUserChanged(s, o.store, CallerIndex(s, me, token))
    ensures o.store.users[CallerIndex(s, me, token)].tokens == RevokeToken(s.users[CallerIndex(s, me, token)].tokens, token)
    ensures o.store.users[CallerIndex(s, me, token)].(tokens := s.users[CallerIndex(s, me, token)].tokens)
            == s.users[CallerIndex(s, me, token)]
    ensures !Authenticated(o.store, me, token)
  {
    var i := CallerIndex(s, me, token);
    var u := s.users[i];
    var users := s.users[i := u.(tokens := RevokeToken(u.tokens, token))];
    assert forall j :: 0 <= j < i ==> users[j].id != me;
    Outcome(Response(200, Text(LoggedOut)), s.(users := users))
  }

  /** After a logout every other session of the caller still authenticates, and no other user is touched. */
  lemma LogoutKeepsOtherSessions(s: Store, me: nat, token: string, other: string)
    requires Authenticated(s, me, token)
    requires other != token && other in s.users[CallerIndex(s, me, token)].tokens
    ensures Authenticated(Logout(s, me, token).store, me, other)
    ensures Count(Logout(s, me, token).store.users[CallerIndex(s, me, token)].tokens, other)
            == Count(s.users[CallerIndex(s, me, token)].tokens, other)
  {
    var i := CallerIndex(s, me, token);
    var o := Logout(s, me, token);
    RevokeTokenKeepsOthers(s.users[i].tokens, token, other);
    assert FindUser(o.store.users, me) == Some(i) by {
      assert forall j :: 0 <= j < i ==> o.store.users[j].id != me;
    }
  }

  /** `POST /users/logoutAll`. */
  function LogoutAll(s: Store, me: nat, token: string): (o: Outcome)
    requires Authenticated(s, me, token)
    ensures o.response == Response(200, Text(LoggedOutAll))
    ensures OnlyUserChanged(s, o.store, CallerIndex(s, me, token))
    ensures o.store.users[CallerIndex(s, me, token)].tokens == []
    ensures o.store.users[CallerIndex(s, me, token)].(tokens := s.users[CallerIndex(s, me, token)].tokens)
            == s.users[CallerIndex(s, me, token)]
    ensures forall t :: !Authenticated(o.store, me, t)
  {
    var i := CallerIndex(s, me, token);
    var users := s.users[i := s.users[i].(tokens := [])];
    assert forall j :: 0 <= j < i ==> users[j].id != me;
    Outcome(Response(200, Text(LoggedOutAll)), s.(users := users))
  }

  // ---------------------------------------------------------------- profile

  /** `GET /users/me`. */
  function Me(s: Store, me: nat, token: string): (o: Outcome)
    requires Authenticated(s, me, token)
    ensures o.store == s
    ensures o.response == Response(200, Profile(ToJSON(s.users[CallerIndex(s, me, token)])))
    ensures o.response.payload.user.id == me
  {
    Outcome(Response(200, Profile(ToJSON(s.users[CallerIndex(s, me, token)]))), s)
  }

  /** All users except the one at position `i`. */
  function Without(users: seq<User>, i: nat): (r: seq<User>)
    requires i < |users|
    ensures |r| == |users| - 1
    ensures forall j :: 0 <= j < i ==> r[j] == users[j]
    ensures forall j :: i < j < |users| ==> r[j - 1] == users[j]
  {
    users[..i] + users[i + 1..]
  }

  /** No user but the one at position `i` has `email` exactly when no user of `Without(users, i)` has it. */
  lemma WithoutHasEmail(users: seq<User>, i: nat, email: string)
    requires i < |users|
    ensures (forall j :: 0 <= j < |Without(users, i)| ==> Without(users, i)[j].email != email)
            <==> (forall j :: 0 <= j < |users| && j != i ==> users[j].email != email)
  {
    var others := Without(users, i);
    forall j | 0 <= j < |users| && j != i
      ensures users[j] == others[if j < i then j else j - 1]
    {
    }
  }

  /** `PATCH /users/me`: a strict allow-list, then the assignments and the save of the whole document. */
  function PatchMe(s: Store, me: nat, token: string, body: Body, c: Crypto): (o: Outcome)
    requires Authenticated(s, me, token)
    ensures !(body.Keys <= UserFields) ==> o == Outcome(Response(400, ErrorObject(InvalidUpdates)), s)
    ensures o.response.status == 200 || o.response.status == 400
    ensures o.response.status == 400 ==> o.store == s
    ensures o.response.status == 200 <==>
      var i := CallerIndex(s, me, token);
      var doc := ApplyUserUpdates(s.users[i], body).0;
      && body.Keys <= UserFields
      && ("age" in body ==> CastNumber(body["age"]).Some?)
      && PassesSchema(doc, c)
      && (doc.email != s.users[i].email ==> forall j :: 0 <= j < |s.users| && j != i ==> s.users[j].email != doc.email)
    ensures o.response.status == 200 ==> OnlyUserChanged(s, o.store, CallerIndex(s, me, token))
    ensures o.response.status == 200 ==>
      var i := CallerIndex(s, me, token);
      var u := s.users[i];
      var v := o.store.users[i];
      && o.response.payload == Profile(ToJSON(v))
      && (v.email != u.email ==> forall j :: 0 <= j < |s.users| && j != i ==> s.users[j].email != v.email)
      && UpdatedFrom(u, body, c, v)
  {
    if !(body.Keys <= UserFields) then Outcome(Response(400, ErrorObject(InvalidUpdates)), s)
    else
      var i := CallerIndex(s, me, token);
      WithoutHasEmail(s.users, i, ApplyUserUpdates(s.users[i], body).0.email);
      match UpdateUser(Without(s.users, i), s.users[i], body, c)
      case Refused(e) => Outcome(Response(400, SaveFailed(e)), s)
      case Stored(v) =>
        Outcome(Response(200, Profile(ToJSON(v))), s.(users := s.users[i := v]))
  }

  /** `DELETE /users/me`: the user goes, and the pre-remove hook takes exactly their tasks with them. */
  function DeleteMe(s: Store, me: nat, token: string): (o: Outcome)
    requires Authenticated(s, me, token)
    ensures o.response == Response(200, DeletedUser(ToJSON(s.users[CallerIndex(s, me, token)])))
    ensures o.store.users == Without(s.users, CallerIndex(s, me, token))
    ensures o.store.nextId == s.nextId
    ensures forall k :: 0 <= k < |o.store.tasks| ==> o.store.tasks[k].owner != me && o.store.tasks[k] in s.tasks
    ensures forall k :: 0 <= k < |s.tasks| && s.tasks[k].owner != me ==> s.tasks[k] in o.store.tasks
    ensures o.store.tasks == DeleteTasksOf(s.tasks, me)
  {
    var i := CallerIndex(s, me, token);
    Outcome(Response(200, DeletedUser(ToJSON(s.users[i]))),
            Store(Without(s.users, i), DeleteTasksOf(s.tasks, me), s.nextId))
  }

  /** Deleting an account leaves every other owner's task in the store as often as it was there, and none of the caller's. */
  lemma DeleteMeKeepsOtherTasks(s: Store, me: nat, token: string, x: Task)
    requires Authenticated(s, me, token)
    ensures Count(DeleteMe(s, me, token).store.tasks, x) == if x.owner != me then Count(s.tasks, x) else 0
  {
    DeleteTasksOfKeepsOrder(s.tasks, [], me, x);
  }

  // ---------------------------------------------------------------- avatar

  /** `POST /users/me/avatar`: the upload filter, the size limit, then the re-encoded image is stored. */
  function UploadAvatar(s: Store, me: nat, token: string, filename: string, bytes: seq<byte>,
                        toPng: seq<byte> -> seq<byte>): (o: Outcome)
    requires Authenticated(s, me, token)
    ensures !MatchesImagePattern(filename) ==> o == Outcome(Response(400, ErrorObject(NotAnImage)), s)
    ensures MatchesImagePattern(filename) && |bytes| > MaxUploadBytes ==> o == Outcome(Response(400, ErrorObject(FileTooLarge)), s)
    ensures o.response.status == 200 <==> MatchesImagePattern(filename) && |bytes| <= MaxUploadBytes
    ensures o.response.status == 200 ==>
      && o.response.payload == Text(AvatarUploaded)
      && OnlyUserChanged(s, o.store, CallerIndex(s, me, token))
      && o.store.users[CallerIndex(s, me, token)] == s.users[CallerIndex(s, me, token)].(avatar := Some(toPng(bytes)))
  {
    match FileFilter(filename)
    case Some(e) => Outcome(Response(400, ErrorObject(e)), s)
    case None =>
      if |bytes| > MaxUploadBytes then Outcome(Response(400, ErrorObject(FileTooLarge)), s)
      else
        var i := CallerIndex(s, me, token);
        Outcome(Response(200, Text(AvatarUploaded)), s.(users := s.users[i := s.users[i].(avatar := Some(toPng(bytes)))]))
  }

  /** `DELETE /users/me/avatar`: only the avatar field is cleared. */
  function DeleteAvatar(s: Store, me: nat, token: string): (o: Outcome)
    requires Authenticated(s, me, token)
    ensures o.response == Response(200, Text(AvatarDeleted))
    ensures OnlyUserChanged(s, o.store, CallerIndex(s, me, token))
    ensures o.store.users[CallerIndex(s, me, token)].avatar == None
    ensures o.store.users[CallerIndex(s, me, token)].(avatar := s.users[CallerIndex(s, me, token)].avatar)
            == s.users[CallerIndex(s, me, token)]
  {
    var i := CallerIndex(s, me, token);
    Outcome(Response(200, Text(AvatarDeleted)), s.(users := s.users[i := s.users[i].(avatar := None)]))
  }

  /** `GET /users/:id/avatar`: public; a missing user and a missing avatar give the same 400. */
  function FetchAvatar(s: Store, id: nat): (o: Outcome)
    ensures o.store == s
    ensures o.response.status == 400 <==>
      (forall j :: 0 <= j < |s.users| ==> s.users[j].id != id) || s.users[FindUser(s.users, id).value].avatar.None?
    ensures o.response.status == 400 ==> o.response.payload == Text(AvatarMissing)
    ensures o.response.status != 400 ==>
      && o.response.status == 200
      && o.response.payload.Png?
      && exists j :: 0 <= j < |s.users| && s.users[j].id == id && s.users[j].avatar == Some(o.response.payload.bytes)
  {
    match FindUser(s.users, id)
    case None => Outcome(Response(400, Text(AvatarMissing)), s)
    case Some(i) =>
      match s.users[i].avatar
      case None => Outcome(Response(400, Text(AvatarMissing)), s)
      case Some(png) => Outcome(Response(200, Png(png)), s)
  }

  /** After a successful upload, the public avatar route serves the re-encoded image. */
  lemma FetchAfterUpload(s: Store, me: nat, token: string, filename: string, bytes: seq<byte>, toPng: seq<byte> -> seq<byte>)
    requires Authenticated(s, me, token)
    requires UploadAvatar(s, me, token, filename, bytes, toPng).response.status == 200
    ensures FetchAvatar(UploadAvatar(s, me, token, filename, bytes, toPng).store, me).response == Response(200, Png(toPng(bytes)))
  {
    var i := CallerIndex(s, me, token);
    var o := UploadAvatar(s, me, token, filename, bytes, toPng);
    assert FindUser(o.store.users, me) == Some(i) by {
      assert forall j :: 0 <= j < i ==> o.store.users[j].id != me;
    }
  }

  /** After the avatar is deleted, the public avatar route answers 400. */
  lemma FetchAfterDeleteAvatar(s: Store, me: nat, token: string)
    requires Authenticated(s, me, token)
    ensures FetchAvatar(DeleteAvatar(s, me, token).store, me).response == Response(400, Text(AvatarMissing))
  {
    var i := CallerIndex(s, me, token);
    var o := DeleteAvatar(s, me, token);
    assert FindUser(o.store.users, me) == Some(i) by {
      assert forall j :: 0 <= j < i ==> o.store.users[j].id != me;
    }
  }

  /** The profile a successful update answers with is what the profile route shows next, with the same token. */
  lemma MeAfterPatch(s: Store, me: nat, token: string, body: Body, c: Crypto)
    requires Authenticated(s, me, token)
    requires PatchMe(s, me, token, body, c).response.status == 200
    ensures Authenticated(PatchMe(s, me, token, body, c).store, me, token)
    ensures Me(PatchMe(s, me, token, body, c).store, me, token).response == PatchMe(s, me, token, body, c).response
  {
    var i := CallerIndex(s, me, token);
    var o := PatchMe(s, me, token, body, c);
    assert FindUser(o.store.users, me) == Some(i) by {
      assert forall j :: 0 <= j < i ==> o.store.users[j].id != me;
    }
  }
}
