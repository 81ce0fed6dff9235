/**
 * The document store the handlers read and write, abstracted as two
 * collections in natural (insertion) order and an id counter, together with
 * the HTTP response a handler produces.
 */
module Database {
  import opened Common
  import opened Seqs
  import opened Schema
  import opened TaskModel
  import opened UserModel

  /** Both collections, in natural order, and the next fresh document id. */
  datatype Store = Store(users: seq<User>, tasks: seq<Task>, nextId: nat)

  /** The response bodies the handlers send. */
  datatype Payload =
    | Text(text: string)
    | ErrorObject(error: string)
    | SaveFailed(reason: SaveError)
    | Profile(user: PublicUser)
    | Session(user: PublicUser, token: string)
    | DeletedUser(user: PublicUser)
    | Png(bytes: seq<byte>)
    | OneTask(task: Task)
    | TaskList(tasks: seq<Task>)
    | StoreError  // the error object of an operation the store refused; its content is not modelled

  datatype Response = Response(status: nat, payload: Payload)

  /** What a handler answers, and the store it leaves behind. */
  datatype Outcome = Outcome(response: Response, store: Store)

  const InvalidUpdates := "Invalid Updates!"

  /** The lookup of a user by id: the position of the first user with that id. */
  function FindUser(users: seq<User>, id: nat): (r: Option<nat>)
    ensures r.Some? ==> r.value < |users| && users[r.value].id == id
    ensures r.Some? ==> forall j :: 0 <= j < r.value ==> users[j].id != id
    ensures r.None? <==> forall j :: 0 <= j < |users| ==> users[j].id != id
  {
    FirstIndex((u: User) => u.id == id, users)
  }

  /**
   * What the authentication middleware establishes before a protected handler runs:
   * the caller `me` exists and still lists the presented token.
   */
  predicate Authenticated(s: Store, me: nat, token: string) {
    FindUser(s.users, me).Some? && token in s.users[FindUser(s.users, me).value].tokens
  }

  /** The position of the authenticated caller. */
  function CallerIndex(s: Store, me: nat, token: string): (i: nat)
    requires Authenticated(s, me, token)
    ensures i < |s.users| && s.users[i].id == me && token in s.users[i].tokens
  {
    FindUser(s.users, me).value
  }

  /** Only the user at position `i` may differ between `s` and `s'`. */
  ghost predicate OnlyUserChanged(s: Store, s': Store, i: nat) {
    && s'.tasks == s.tasks
    && s'.nextId == s.nextId
    && |s'.users| == |s.users|
    && forall j :: 0 <= j < |s.users| && j != i ==> s'.users[j] == s.users[j]
  }

  /** Only the task at position `i` may differ between `s` and `s'`. */
  ghost predicate OnlyTaskChanged(s: Store, s': Store, i: nat) {
    && s'.users == s.users
    && s'.nextId == s.nextId
    && |s'.tasks| == |s.tasks|
    && forall j :: 0 <= j < |s.tasks| && j != i ==> s'.tasks[j] == s.tasks[j]
  }

  ghost predicate UniqueUsers(users: seq<User>) {
    forall i, j :: 0 <= i < j < |users| ==> users[i].id != users[j].id && users[i].email != users[j].email
  }

  ghost predicate UniqueTasks(tasks: seq<Task>) {
    forall i, j :: 0 <= i < j < |tasks| ==> tasks[i].id != tasks[j].id
  }

  /**
   * The store invariant: ids and e-mails are unique, every id was handed out by the
   * counter, and every task's owner is a stored user (the cascade keeps this true).
   */
  ghost predicate Valid(s: Store) {
    && UniqueUsers(s.users)
    && UniqueTasks(s.tasks)
    && (forall i :: 0 <= i < |s.users| ==> s.users[i].id < s.nextId)
    && (forall i :: 0 <= i < |s.tasks| ==> s.tasks[i].id < s.nextId)
    && (forall i :: 0 <= i < |s.tasks| ==> FindUser(s.users, s.tasks[i].owner).Some?)
  }
}
