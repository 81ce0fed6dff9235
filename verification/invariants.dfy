/**
 * The store invariant `Valid` (unique ids and e-mails, ids drawn from the
 * counter, every task owned by a stored user) holds after every handler
 * that writes, given that it held before.
 */
module Invariants {
  import opened Common
  import opened Seqs
  import opened TaskModel
  import opened UserModel
  import opened Database
  import opened UserRouter
  import opened TaskRouter

  /** Rewriting one user, keeping its id and an e-mail no other user has, keeps the store valid. */
  lemma UserRewriteKeepsValid(s: Store, s': Store, i: nat)
    requires Valid(s) && i < |s.users|
    requires OnlyUserChanged(s, s', i)
    requires s'.users[i].id == s.users[i].id
    requires forall j :: 0 <= j < |s.users| && j != i ==> s.users[j].email != s'.users[i].email
    ensures Valid(s')
  {
    forall k | 0 <= k < |s'.tasks|
      ensures FindUser(s'.users, s'.tasks[k].owner).Some?
    {
      var j := FindUser(s.users, s.tasks[k].owner).value;
      assert s'.users[j].id == s.tasks[k].owner;
    }
  }

  /** A task whose id no task of `rest` has can go in front of `rest`. */
  lemma ConsKeepsIdsUnique(t: Task, rest: seq<Task>)
    requires UniqueTasks(rest)
    requires forall k :: 0 <= k < |rest| ==> rest[k].id != t.id
    ensures UniqueTasks([t] + rest)
  {
    var r := [t] + rest;
    forall a, b | 0 <= a < b < |r|
      ensures r[a].id != r[b].id
    {
      assert r[b] == rest[b - 1];
      if a > 0 {
        assert r[a] == rest[a - 1];
      }
    }
  }

  /** A filter keeps task ids unique. */
  lemma {:induction false} FilterKeepsIdsUnique(p: Task -> bool, tasks: seq<Task>)
    requires UniqueTasks(tasks)
    ensures UniqueTasks(Filter(p, tasks))
    decreases |tasks|
  {
    if tasks != [] {
      var tail := tasks[1..];
      assert forall a, b :: 0 <= a < b < |tail| ==> tail[a] == tasks[a + 1] && tail[b] == tasks[b + 1];
      FilterKeepsIdsUnique(p, tail);
      if p(tasks[0]) {
        var kept := Filter(p, tail);
        forall k | 0 <= k < |kept|
          ensures kept[k].id != tasks[0].id
        {
          var m :| 0 <= m < |tail| && tail[m] == kept[k];
          assert tasks[m + 1] == tail[m];
        }
        ConsKeepsIdsUnique(tasks[0], kept);
      }
    }
  }

  /** Appending a user with the next fresh id and an e-mail no stored user has keeps the store valid. */
  lemma AppendUserKeepsValid(s: Store, s': Store, u: User)
    requires Valid(s)
    requires s'.users == s.users + [u] && s'.tasks == s.tasks && s'.nextId == s.nextId + 1
    requires u.id == s.nextId && forall j :: 0 <= j < |s.users| ==> s.users[j].email != u.email
    ensures Valid(s')
  {
    forall k | 0 <= k < |s'.tasks|
      ensures FindUser(s'.users, s'.tasks[k].owner).Some?
    {
      var j := FindUser(s.users, s.tasks[k].owner).value;
      assert s'.users[j].id == s.tasks[k].owner;
    }
  }

  lemma RegisterKeepsValid(s: Store, body: Body, c: Crypto, token: string)
    requires Valid(s)
    ensures Valid(Register(s, body, c, token).store)
  {
    var o := Register(s, body, c, token);
    if o.response.status == 201 {
      var n := |s.users|;
      assert o.store.users == o.store.users[..n] + [o.store.users[n]];
      AppendUserKeepsValid(s, o.store, o.store.users[n]);
    }
  }

  lemma LoginKeepsValid(s: Store, email: string, password: string, c: Crypto, token: string)
    requires Valid(s)
    ensures Valid(Login(s, email, password, c, token).store)
  {
    var o := Login(s, email, password, c, token);
    if o.response.status == 200 {
      UserRewriteKeepsValid(s, o.store, FindEmail(s.users, email).value);
    }
  }

  lemma LogoutKeepsValid(s: Store, me: nat, token: string)
    requires Valid(s) && Authenticated(s, me, token)
    ensures Valid(Logout(s, me, token).store)
  {
    UserRewriteKeepsValid(s, Logout(s, me, token).store, CallerIndex(s, me, token));
  }

  lemma LogoutAllKeepsValid(s: Store, me: nat, token: string)
    requires Valid(s) && Authenticated(s, me, token)
    ensures Valid(LogoutAll(s, me, token).store)
  {
    UserRewriteKeepsValid(s, LogoutAll(s, me, token).store, CallerIndex(s, me, token));
  }

  lemma PatchMeKeepsValid(s: Store, me: nat, token: string, body: Body, c: Crypto)
    requires Valid(s) && Authenticated(s, me, token)
    ensures Valid(PatchMe(s, me, token, body, c).store)
  {
    var o := PatchMe(s, me, token, body, c);
    if o.response.status == 200 {
      UserRewriteKeepsValid(s, o.store, CallerIndex(s, me, token));
    }
  }

  lemma UploadAvatarKeepsValid(s: Store, me: nat, token: string, filename: string, bytes: seq<byte>,
                               toPng: seq<byte> -> seq<byte>)
    requires Valid(s) && Authenticated(s, me, token)
    ensures Valid(UploadAvatar(s, me, token, filename, bytes, toPng).store)
  {
    var o := UploadAvatar(s, me, token, filename, bytes, toPng);
    if o.response.status == 200 {
      UserRewriteKeepsValid(s, o.store, CallerIndex(s, me, token));
    }
  }

  lemma DeleteAvatarKeepsValid(s: Store, me: nat, token: string)
    requires Valid(s) && Authenticated(s, me, token)
    ensures Valid(DeleteAvatar(s, me, token).store)
  {
    UserRewriteKeepsValid(s, DeleteAvatar(s, me, token).store, CallerIndex(s, me, token));
  }

  /** Removing one user keeps the other users' ids and e-mails unique and below the counter. */
  lemma WithoutKeepsUsersUnique(users: seq<User>, i: nat, nextId: nat)
    requires i < |users| && UniqueUsers(users)
    requires forall j :: 0 <= j < |users| ==> users[j].id < nextId
    ensures UniqueUsers(Without(users, i))
    ensures forall j :: 0 <= j < |Without(users, i)| ==> Without(users, i)[j].id < nextId
  {
    var r := Without(users, i);
    assert forall j :: 0 <= j < |r| ==> r[j] == users[if j < i then j else j + 1];
  }

  /** An owner other than the removed user is still found. */
  lemma OwnerSurvives(users: seq<User>, i: nat, owner: nat)
    requires i < |users| && owner != users[i].id && FindUser(users, owner).Some?
    ensures FindUser(Without(users, i), owner).Some?
  {
    var j := FindUser(users, owner).value;
    assert Without(users, i)[if j < i then j else j - 1] == users[j];
  }

  /** After the cascade every remaining task still has a stored owner. */
  lemma CascadeKeepsOwners(s: Store, i: nat, tasks: seq<Task>)
    requires Valid(s) && i < |s.users|
    requires forall k :: 0 <= k < |tasks| ==> tasks[k].owner != s.users[i].id && tasks[k] in s.tasks
    ensures forall k :: 0 <= k < |tasks| ==> FindUser(Without(s.users, i), tasks[k].owner).Some?
    ensures forall k :: 0 <= k < |tasks| ==> tasks[k].id < s.nextId
  {
    forall k | 0 <= k < |tasks|
      ensures FindUser(Without(s.users, i), tasks[k].owner).Some? && tasks[k].id < s.nextId
    {
      var m :| 0 <= m < |s.tasks| && s.tasks[m] == tasks[k];
      OwnerSurvives(s.users, i, tasks[k].owner);
    }
  }

  /** Deleting the caller together with their tasks leaves no task without an owner. */
  lemma DeleteMeKeepsValid(s: Store, me: nat, token: string)
    requires Valid(s) && Authenticated(s, me, token)
    ensures Valid(DeleteMe(s, me, token).store)
  {
    var i := CallerIndex(s, me, token);
    var o := DeleteMe(s, me, token);
    FilterKeepsIdsUnique((t: Task) => t.owner != me, s.tasks);
    WithoutKeepsUsersUnique(s.users, i, s.nextId);
    CascadeKeepsOwners(s, i, o.store.tasks);
  }

  /** Appending a task with the next fresh id and a stored owner keeps the store valid. */
  lemma AppendTaskKeepsValid(s: Store, s': Store, t: Task)
    requires Valid(s)
    requires s'.users == s.users && s'.tasks == s.tasks + [t] && s'.nextId == s.nextId + 1
    requires t.id == s.nextId && FindUser(s.users, t.owner).Some?
    ensures Valid(s')
  {
  }

  lemma CreateTaskKeepsValid(s: Store, me: nat, token: string, body: Body, now: nat)
    requires Valid(s) && Authenticated(s, me, token)
    ensures Valid(CreateTask(s, me, token, body, now).store)
  {
    var o := CreateTask(s, me, token, body, now);
    if o.response.status == 201 {
      var n := |s.tasks|;
      assert o.store.tasks == o.store.tasks[..n] + [o.store.tasks[n]];
      AppendTaskKeepsValid(s, o.store, o.store.tasks[n]);
    }
  }

  lemma PatchTaskKeepsValid(s: Store, me: nat, token: string, id: nat, body: Body, now: nat)
    requires Valid(s) && Authenticated(s, me, token)
    ensures Valid(PatchTask(s, me, token, id, body, now).store)
  {
  }

  /** Removing the task at one position keeps the store valid. */
  lemma RemoveTaskKeepsValid(s: Store, s': Store, i: nat)
    requires Valid(s) && i < |s.tasks|
    requires s'.users == s.users && s'.nextId == s.nextId && s'.tasks == s.tasks[..i] + s.tasks[i + 1..]
    ensures Valid(s')
  {
    assert forall k :: 0 <= k < |s'.tasks| ==> s'.tasks[k] == s.tasks[if k < i then k else k + 1];
  }

  lemma DeleteTaskKeepsValid(s: Store, me: nat, token: string, id: nat)
    requires Valid(s) && Authenticated(s, me, token)
    ensures Valid(DeleteTask(s, me, token, id).store)
  {
    if FindOwned(s.tasks, id, me).Some? {
      RemoveTaskKeepsValid(s, DeleteTask(s, me, token, id).store, FindOwned(s.tasks, id, me).value);
    }
  }
}
