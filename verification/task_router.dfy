/**
 * The handlers of `src/routers/task.mjs`. Every lookup is scoped to the
 * caller: a task of another owner is exactly as invisible as a task that
 * does not exist. The clock that stamps creation and update times is a
 * parameter.
 */
module TaskRouter {
  import opened Common
  import opened Strings
  import opened Seqs
  import opened Schema
  import opened TaskModel
  import opened UserModel
  import opened Database
  import opened TaskQuery

  const TaskNotFound := "Task Not Found!"

  /** The caller's tasks, in natural order (the `tasks` virtual: `owner` equals the user's id). */
  function Mine(tasks: seq<Task>, me: nat): (r: seq<Task>)
    ensures forall k :: 0 <= k < |r| ==> r[k].owner == me && r[k] in tasks
    ensures forall k :: 0 <= k < |tasks| && tasks[k].owner == me ==> tasks[k] in r
  {
    Filter((t: Task) => t.owner == me, tasks)
  }

  /** The caller's tasks come in store order, each as often as it is stored. */
  lemma MineKeepsOrder(a: seq<Task>, b: seq<Task>, me: nat, x: Task)
    ensures Mine(a + b, me) == Mine(a, me) + Mine(b, me)
    ensures Count(Mine(a, me), x) == if x.owner == me then Count(a, x) else 0
  {
    FilterAppend((t: Task) => t.owner == me, a, b);
    FilterCount((t: Task) => t.owner == me, a, x);
  }

  // ---------------------------------------------------------------- create

  /** The fields a new task is built from: the body's keys, with the owner set to the caller even when the body names another. */
  function WithOwner(body: Body, me: nat): (fields: Body)
    ensures fields.Keys == body.Keys + {"owner"}
    ensures fields["owner"] == JNum(me)
    ensures forall k :: k in body && k != "owner" ==> fields[k] == body[k]
  {
    body["owner" := JNum(me)]
  }

  /** `new Task(fields)`: the document the schema builds and the cast errors it records. */
  function NewTask(fields: Body, id: nat, now: nat): (r: (Task, map<string, string>))
    ensures r.0.id == id && r.0.createdAt == now && r.0.updatedAt == now
    ensures r.0.description == if "description" in fields then Trim(CastString(fields["description"])) else ""
    ensures "completed" !in fields ==> !r.0.completed
    ensures "completed" in fields && CastBool(fields["completed"]).Some? ==> r.0.completed == CastBool(fields["completed"]).value
    ensures "owner" in fields && fields["owner"].JNum? && fields["owner"].num >= 0 ==> r.0.owner == fields["owner"].num
    ensures "completed" in r.1 <==> "completed" in fields && CastBool(fields["completed"]).None?
    ensures "owner" in r.1 <==> !("owner" in fields && fields["owner"].JNum? && fields["owner"].num >= 0)
    ensures r.1.Keys <= {"completed", "owner"}
  {
    var description := if "description" in fields then Trim(CastString(fields["description"])) else "";
    var completedCast := if "completed" in fields then CastBool(fields["completed"]) else Some(false);
    var ownerOk := "owner" in fields && fields["owner"].JNum? && fields["owner"].num >= 0;
    var owner := if ownerOk then fields["owner"].num else 0;
    var castErrors :=
      (if completedCast.None? then map["completed" := CastMessage("Boolean", "completed")] else map[])
      + (if !ownerOk then map["owner" := RequiredMessage("owner")] else map[]);
    (Task(id, description, completedCast.Some? && completedCast.value, owner, now, now), castErrors)
  }

  /** `POST /tasks`. */
  function CreateTask(s: Store, me: nat, token: string, body: Body, now: nat): (o: Outcome)
    requires Authenticated(s, me, token)
    ensures o.response.status == 201 || o.response.status == 400
    ensures o.response.status == 400 ==> o.store == s && o.response.payload.SaveFailed?
    ensures o.response.status == 201 <==>
      && "description" in body && Trim(CastString(body["description"])) != ""
      && ("completed" in body ==> CastBool(body["completed"]).Some?)
    ensures o.response.status == 201 ==>
      && |o.store.tasks| == |s.tasks| + 1
      && o.store.tasks[..|s.tasks|] == s.tasks
      && o.store.users == s.users
      && o.store.nextId == s.nextId + 1
      && o.response.payload == OneTask(o.store.tasks[|s.tasks|])
    ensures o.response.status == 201 ==>
      var t := o.store.tasks[|s.tasks|];
      && t.owner == me
      && t.id == s.nextId
      && t.description == Trim(CastString(body["description"]))
      && t.completed == ("completed" in body && CastBool(body["completed"]) == Some(true))
      && t.createdAt == now && t.updatedAt == now
  {
    var (t, castErrors) := NewTask(WithOwner(body, me), s.nextId, now);
    var errors := ValidateTask(t, TaskFields, castErrors);
    if errors != map[] then Outcome(Response(400, SaveFailed(Invalid(errors))), s)
    else
      var tasks := s.tasks + [t];
      assert tasks[..|s.tasks|] == s.tasks;
      Outcome(Response(201, OneTask(t)), s.(tasks := tasks, nextId := s.nextId + 1))
  }

  // ------------------------------------------------------------------ list

  /** The caller's tasks that pass the `completed` match, in natural order. */
  function Matching(tasks: seq<Task>, me: nat, completed: Option<bool>): (r: seq<Task>)
    ensures forall k :: 0 <= k < |r| ==> r[k] in tasks && r[k].owner == me && (completed.Some? ==> r[k].completed == completed.value)
    ensures forall k :: 0 <= k < |tasks| && tasks[k].owner == me && (completed.Some? ==> tasks[k].completed == completed.value) ==> tasks[k] in r
  {
    match completed
    case None => Mine(tasks, me)
    case Some(b) => Filter((t: Task) => t.completed == b, Mine(tasks, me))
  }

  /** The matching tasks come in store order, each as often as it is stored. */
  lemma MatchingKeepsOrder(a: seq<Task>, b: seq<Task>, me: nat, completed: Option<bool>, x: Task)
    ensures Matching(a + b, me, completed) == Matching(a, me, completed) + Matching(b, me, completed)
    ensures Count(Matching(a, me, completed), x)
            == if x.owner == me && (completed.Some? ==> x.completed == completed.value) then Count(a, x) else 0
  {
    MineKeepsOrder(a, b, me, x);
    if completed.Some? {
      var keep := (t: Task) => t.completed == completed.value;
      FilterAppend(keep, Mine(a, me), Mine(b, me));
      FilterCount(keep, Mine(a, me), x);
    }
  }

  /** The matching tasks in the order the query asks for: natural order, or sorted by the key. */
  function Ordered(matched: seq<Task>, sort: Option<SortSpec>): (r: seq<Task>)
    ensures multiset(r) == multiset(matched)
    ensures sort.None? ==> r == matched
    ensures sort.Some? ==> Sorted(r, sort.value)
  {
    match sort
    case None => matched
    case Some(spec) => SortTasks(matched, spec)
  }

  /** The page the store hands back for `opts`: the caller's matching tasks, ordered, with `skip` dropped and at most `limit` kept. */
  function Page(tasks: seq<Task>, me: nat, opts: Options): (page: seq<Task>)
    ensures |page| <= opts.limit
    ensures forall k :: 0 <= k < |page| ==> page[k] in tasks && page[k].owner == me
    ensures forall k :: 0 <= k < |page| ==> opts.completed.Some? ==> page[k].completed == opts.completed.value
    ensures opts.sort.Some? ==> Sorted(page, opts.sort.value)
    ensures page == Window(Ordered(Matching(tasks, me, opts.completed), opts.sort), opts.skip, opts.limit)
  {
    var matched := Matching(tasks, me, opts.completed);
    var ordered := Ordered(matched, opts.sort);
    var page := Window(ordered, opts.skip, opts.limit);
    WindowMembers(ordered, opts.skip, opts.limit, matched);
    SortedWindow(ordered, opts.skip, opts.limit, opts.sort);
    page
  }

  /** Every element of a window of a permutation of `m` is an element of `m`. */
  lemma WindowMembers(s: seq<Task>, skip: nat, limit: nat, m: seq<Task>)
    requires multiset(s) == multiset(m)
    ensures forall k :: 0 <= k < |Window(s, skip, limit)| ==> Window(s, skip, limit)[k] in m
  {
    var w := Window(s, skip, limit);
    forall k | 0 <= k < |w|
      ensures w[k] in m
    {
      assert w[k] == s[skip + k];
      assert w[k] in multiset(s);
    }
  }

  /** A window of a sorted list is sorted. */
  lemma SortedWindow(s: seq<Task>, skip: nat, limit: nat, sort: Option<SortSpec>)
    requires sort.Some? ==> Sorted(s, sort.value)
    ensures sort.Some? ==> Sorted(Window(s, skip, limit), sort.value)
  {
    if sort.Some? {
      var w := Window(s, skip, limit);
      forall i, j | 0 <= i < j < |w|
        ensures InOrder(w[i], w[j], sort.value)
      {
        assert w[i] == s[skip + i] && w[j] == s[skip + j];
      }
    }
  }

  /**
   * `GET /tasks`: the caller's matching tasks, ordered, with `skip` dropped and
   * at most `limit` kept. A sort field the store refuses makes the store call
   * fail, and the handler answers 500.
   */
  function ListTasks(s: Store, me: nat, token: string, q: Query): (o: Outcome)
    requires Authenticated(s, me, token)
    requires Parsable(q)
    ensures o.store == s
    ensures o.response.status == 200 || o.response.status == 500
    ensures o.response.status == 500 <==> Given(q.sortBy) && !SortPathOk(SortSpecOf(q.sortBy.value).field)
    ensures o.response.status == 500 ==> o.response.payload == StoreError
    ensures o.response.status == 200 ==> o.response.payload.TaskList?
    ensures o.response.status == 200 ==>
      var page := o.response.payload.tasks;
      var opts := ParseQuery(q);
      && |page| <= opts.limit
      && (forall k :: 0 <= k < |page| ==> page[k] in s.tasks && page[k].owner == me)
      && (forall k :: 0 <= k < |page| ==> opts.completed.Some? ==> page[k].completed == opts.completed.value)
      && (opts.sort.Some? ==> Sorted(page, opts.sort.value))
      && page == Window(Ordered(Matching(s.tasks, me, opts.completed), opts.sort), opts.skip, opts.limit)
  {
    var opts := ParseQuery(q);
    if opts.sort.Some? && !SortPathOk(opts.sort.value.field) then Outcome(Response(500, StoreError), s)
    else Outcome(Response(200, TaskList(Page(s.tasks, me, opts))), s)
  }

  /** A `sortBy` that starts with an underscore, such as `_id` or `_desc`, names the empty field, which the store refuses. */
  lemma LeadingUnderscoreSortFails(s: Store, me: nat, token: string, q: Query, rest: string)
    requires Authenticated(s, me, token)
    requires Parsable(q)
    requires q.sortBy == Some("_" + rest)
    ensures SortSpecOf("_" + rest).field == ""
    ensures ListTasks(s, me, token, q) == Outcome(Response(500, StoreError), s)
  {
  }

  /** `limit=<l>&skip=<k>&sortBy=<field>_desc` asks for `limit` tasks after the first `skip`, in descending `field` order, whichever spelling `parseInt` reads the counts from. */
  lemma PagedDescendingQuery(l: string, k: string, limit: nat, skip: nat, field: string)
    requires Numbers.ParseInt(l) == Some(limit) && Numbers.ParseInt(k) == Some(skip)
    requires field != [] && '_' !in field
    ensures var q := Query(None, Some(l), Some(k), Some(field + "_desc"));
      Parsable(q) && ParseQuery(q) == Options(None, limit, skip, Some(SortSpec(field, true)))
  {
    var q := Query(None, Some(l), Some(k), Some(field + "_desc"));
    assert Given(q.limit) && Given(q.skip) by {
      Numbers.ParsedTextIsNonEmpty(l);
      Numbers.ParsedTextIsNonEmpty(k);
    }
    assert Parsable(q);
    assert SortSpecOf(field + "_desc") == SortSpec(field, true) by {
      SortSpecOfFieldAndDirection(field, "desc");
      assert field + "_" + "desc" == field + "_desc";
    }
  }

  /** Sorted by `createdAt` descending means creation times never increase along the list. */
  lemma NewestFirst(page: seq<Task>)
    requires Sorted(page, SortSpec("createdAt", true))
    ensures forall i, j :: 0 <= i < j < |page| ==> page[i].createdAt >= page[j].createdAt
  {
    forall i, j | 0 <= i < j < |page|
      ensures page[i].createdAt >= page[j].createdAt
    {
      assert InOrder(page[i], page[j], SortSpec("createdAt", true));
    }
  }

  /** `GET /tasks?limit=5&skip=5&sortBy=createdAt_desc`: at most five tasks, newest first, after the five newest. */
  lemma ListNewestSecondPage(s: Store, me: nat, token: string)
    requires Authenticated(s, me, token)
    ensures var q := Query(None, Some("5"), Some("5"), Some("createdAt_desc"));
      && Parsable(q)
      && ListTasks(s, me, token, q).response.status == 200
      && var page := ListTasks(s, me, token, q).response.payload.tasks;
      && |page| <= 5
      && page == Window(SortTasks(Mine(s.tasks, me), SortSpec("createdAt", true)), 5, 5)
      && forall i, j :: 0 <= i < j < |page| ==> page[i].createdAt >= page[j].createdAt
  {
    var q := Query(None, Some("5"), Some("5"), Some("createdAt_desc"));
    var spec := SortSpec("createdAt", true);
    NewestSecondPageQuery();
    var o := ListTasks(s, me, token, q);
    var page := o.response.payload.tasks;
    assert page == Window(SortTasks(Mine(s.tasks, me), spec), 5, 5);
    NewestFirst(page);
  }

  /** `parseInt("5")` is 5. */
  lemma ParseFive()
    ensures Numbers.ParseInt("5") == Some(5)
  {
    Numbers.ParseShowRoundTrip(5);
    assert Numbers.ShowNat(5) == "5";
  }

  /** The query of the second page of five, newest first, as the store sees it. */
  lemma NewestSecondPageQuery()
    ensures var q := Query(None, Some("5"), Some("5"), Some("createdAt_desc"));
      && Parsable(q)
      && ParseQuery(q) == Options(None, 5, 5, Some(SortSpec("createdAt", true)))
      && SortPathOk("createdAt")
  {
    ParseFive();
    PagedDescendingQuery("5", "5", 5, 5, "createdAt");
    assert "createdAt" + "_desc" == "createdAt_desc";
    assert '.' !in "createdAt";
    PlainNameIsSortPath("createdAt");
  }

  // ------------------------------------------------------- scoped lookups

  /** The lookup of a task by id, scoped to its owner: the first task with that id that the caller owns. */
  function FindOwned(tasks: seq<Task>, id: nat, me: nat): (r: Option<nat>)
    ensures r.Some? ==> r.value < |tasks| && tasks[r.value].id == id && tasks[r.value].owner == me
    ensures r.None? <==> forall j :: 0 <= j < |tasks| ==> tasks[j].id != id || tasks[j].owner != me
  {
    FirstIndex((t: Task) => t.id == id && t.owner == me, tasks)
  }

  /** The first task of `ts` with id `id`. */
  function FirstWithId(ts: seq<Task>, id: nat): Option<Task> {
    if ts == [] then None
    else if ts[0].id == id then Some(ts[0])
    else FirstWithId(ts[1..], id)
  }

  /** The scoped lookup finds what a lookup among the caller's own tasks finds, and nothing else. */
  lemma {:induction false} FindOwnedSeesOnlyMine(tasks: seq<Task>, id: nat, me: nat)
    ensures FirstWithId(Mine(tasks, me), id)
            == match FindOwned(tasks, id, me) case None => None case Some(i) => Some(tasks[i])
    decreases |tasks|
  {
    if tasks != [] {
      FindOwnedSeesOnlyMine(tasks[1..], id, me);
    }
  }

  /** `GET /tasks/:id`. */
  function GetTask(s: Store, me: nat, token: string, id: nat): (o: Outcome)
    requires Authenticated(s, me, token)
    ensures o.store == s
    ensures o.response.status == 404 <==> forall j :: 0 <= j < |s.tasks| ==> s.tasks[j].id != id || s.tasks[j].owner != me
    ensures o.response.status == 404 ==> o.response.payload == Text(TaskNotFound)
    ensures o.response.status != 404 ==>
      && o.response.status == 200 && o.response.payload.OneTask?
      && o.response.payload.task in s.tasks && o.response.payload.task.id == id && o.response.payload.task.owner == me
  {
    match FindOwned(s.tasks, id, me)
    case None => Outcome(Response(404, Text(TaskNotFound)), s)
    case Some(i) => Outcome(Response(200, OneTask(s.tasks[i])), s)
  }

  /** `PATCH /tasks/:id`: the allow-list first, then the scoped lookup, then the save of the whole document. */
  function PatchTask(s: Store, me: nat, token: string, id: nat, body: Body, now: nat): (o: Outcome)
    requires Authenticated(s, me, token)
    ensures !(body.Keys <= TaskFields) ==> o == Outcome(Response(400, ErrorObject(InvalidUpdates)), s)
    ensures body.Keys <= TaskFields && FindOwned(s.tasks, id, me).None? ==> o == Outcome(Response(404, Text(TaskNotFound)), s)
    ensures o.response.status == 200 || o.response.status == 400 || o.response.status == 404
    ensures o.response.status != 200 ==> o.store == s
    ensures o.response.status == 200 <==>
      && body.Keys <= TaskFields
      && FindOwned(s.tasks, id, me).Some?
      && ("completed" in body ==> CastBool(body["completed"]).Some?)
      && (if "description" in body then Trim(CastString(body["description"]))
          else s.tasks[FindOwned(s.tasks, id, me).value].description) != ""
    ensures o.response.status == 200 ==> OnlyTaskChanged(s, o.store, FindOwned(s.tasks, id, me).value)
    ensures o.response.status == 200 ==>
      var i := FindOwned(s.tasks, id, me).value;
      var t := s.tasks[i];
      var v := o.store.tasks[i];
      && o.response.payload == OneTask(v)
      && v.id == t.id && v.owner == me && v.createdAt == t.createdAt
      && v.description == (if "description" in body then Trim(CastString(body["description"])) else t.description)
      && v.description != ""
      && ("completed" in body ==> Some(v.completed) == CastBool(body["completed"]))
      && ("completed" !in body ==> v.completed == t.completed)
      && (v.description == t.description && v.completed == t.completed ==> v == t)
      && (v.description != t.description || v.completed != t.completed ==> v.updatedAt == now)
  {
    if !(body.Keys <= TaskFields) then Outcome(Response(400, ErrorObject(InvalidUpdates)), s)
    else match FindOwned(s.tasks, id, me)
      case None => Outcome(Response(404, Text(TaskNotFound)), s)
      case Some(i) =>
        var t := s.tasks[i];
        var (doc, castErrors) := ApplyTaskUpdates(t, body);
        var modified := ChangedTaskPaths(t, doc);
        var errors := ValidateTask(doc, TaskFields, castErrors);
        if errors != map[] then Outcome(Response(400, SaveFailed(Invalid(errors))), s)
        else
          var saved := if modified == {} then doc else doc.(updatedAt := now);
          Outcome(Response(200, OneTask(saved)), s.(tasks := s.tasks[i := saved]))
  }

  /**
   * Marking a task done makes it one of the caller's done tasks, and listing done
   * tasks with the default page shows it whenever the caller has at most ten of them.
   */
  lemma CompletedTaskIsListed(s: Store, me: nat, token: string, id: nat, now: nat)
    requires Authenticated(s, me, token)
    requires PatchTask(s, me, token, id, map["completed" := JBool(true)], now).response.status == 200
    ensures var o := PatchTask(s, me, token, id, map["completed" := JBool(true)], now);
      var t := o.response.payload.task;
      && t.id == id && t.owner == me && t.completed
      && t in Matching(o.store.tasks, me, Some(true))
      && Authenticated(o.store, me, token)
      && (|Matching(o.store.tasks, me, Some(true))| <= DefaultLimit ==>
            t in ListTasks(o.store, me, token, Query(Some("true"), None, None, None)).response.payload.tasks)
  {
    var body := map["completed" := JBool(true)];
    var o := PatchTask(s, me, token, id, body, now);
    var i := FindOwned(s.tasks, id, me).value;
    var t := o.response.payload.task;
    assert o.store.tasks[i] == t;
    var matched := Matching(o.store.tasks, me, Some(true));
    assert t in matched;
    var q := Query(Some("true"), None, None, None);
    assert ParseQuery(q) == Options(Some(true), DefaultLimit, DefaultSkip, None);
    if |matched| <= DefaultLimit {
      var page := ListTasks(o.store, me, token, q).response.payload.tasks;
      assert page == Window(matched, 0, DefaultLimit);
      assert page == matched;
    }
  }

  /** `DELETE /tasks/:id`: exactly the matched task goes, and is returned. */
  function DeleteTask(s: Store, me: nat, token: string, id: nat): (o: Outcome)
    requires Authenticated(s, me, token)
    ensures FindOwned(s.tasks, id, me).None? ==> o == Outcome(Response(404, Text(TaskNotFound)), s)
    ensures FindOwned(s.tasks, id, me).Some? ==>
      var i := FindOwned(s.tasks, id, me).value;
      && o.response == Response(200, OneTask(s.tasks[i]))
      && o.store == s.(tasks := s.tasks[..i] + s.tasks[i + 1..])
      && multiset(o.store.tasks) + multiset{s.tasks[i]} == multiset(s.tasks)
  {
    match FindOwned(s.tasks, id, me)
    case None => Outcome(Response(404, Text(TaskNotFound)), s)
    case Some(i) =>
      assert s.tasks == s.tasks[..i] + [s.tasks[i]] + s.tasks[i + 1..];
      Outcome(Response(200, OneTask(s.tasks[i])), s.(tasks := s.tasks[..i] + s.tasks[i + 1..]))
  }

  /**
   * Get, update and delete answer the same for two stores in which the caller owns the
   * same tasks: another owner's task with the requested id is as invisible as no task at all.
   */
  lemma ScopedHandlersSeeOnlyMine(s: Store, s': Store, me: nat, token: string, token': string, id: nat, body: Body, now: nat)
    requires Authenticated(s, me, token) && Authenticated(s', me, token')
    requires Mine(s.tasks, me) == Mine(s'.tasks, me)
    ensures GetTask(s, me, token, id).response == GetTask(s', me, token', id).response
    ensures PatchTask(s, me, token, id, body, now).response == PatchTask(s', me, token', id, body, now).response
    ensures DeleteTask(s, me, token, id).response == DeleteTask(s', me, token', id).response
  {
    FindOwnedSeesOnlyMine(s.tasks, id, me);
    FindOwnedSeesOnlyMine(s'.tasks, id, me);
  }
}
