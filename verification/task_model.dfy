/**
 * The Task record. `src/models/task.mjs` is not part of this model, so the
 * record and its rules are assumptions of the model: a required, trimmed
 * string description, a boolean `completed` that defaults to false, a
 * required owner id, and creation and update times.
 */
module TaskModel {
  import opened Common
  import opened Strings
  import opened Schema

  datatype Task = Task(
    id: nat,
    description: string,
    completed: bool,
    owner: nat,
    createdAt: nat,
    updatedAt: nat)

  /** The keys a task PATCH may carry. */
  const TaskFields: set<string> := {"description", "completed"}

  /** The validation errors of a task document for the paths being saved. */
  function ValidateTask(t: Task, paths: set<string>, castErrors: map<string, string>): (errors: map<string, string>)
    ensures errors == map[] <==> castErrors == map[] && ("description" in paths ==> t.description != "")
    ensures forall p :: p in castErrors ==> p in errors && errors[p] == castErrors[p]
  {
    if "description" in paths && "description" !in castErrors && t.description == "" then
      var errors := castErrors["description" := RequiredMessage("description")];
      assert "description" in errors;
      errors
    else castErrors
  }

  /** The values a task PATCH assigns, and the cast errors it records. */
  function ApplyTaskUpdates(t: Task, body: Body): (r: (Task, map<string, string>))
    ensures r.0.(description := t.description, completed := t.completed) == t
    ensures "description" in body ==> r.0.description == Trim(CastString(body["description"]))
    ensures "description" !in body ==> r.0.description == t.description
    ensures "completed" !in body ==> r.0.completed == t.completed
    ensures "completed" in body && CastBool(body["completed"]).Some? ==> r.0.completed == CastBool(body["completed"]).value
    ensures r.1.Keys <= TaskFields
    ensures "completed" in r.1 <==> "completed" in body && CastBool(body["completed"]).None?
  {
    var description := if "description" in body then Trim(CastString(body["description"])) else t.description;
    var completed :=
      if "completed" in body && CastBool(body["completed"]).Some? then CastBool(body["completed"]).value
      else t.completed;
    var castErrors :=
      if "completed" in body && CastBool(body["completed"]).None? then map["completed" := CastMessage("Boolean", "completed")]
      else map[];
    (t.(description := description, completed := completed), castErrors)
  }

  /** The paths whose value an assignment actually changed (what the mapper marks as modified). */
  function ChangedTaskPaths(before: Task, after: Task): (paths: set<string>)
    ensures paths <= TaskFields
    ensures "description" in paths <==> before.description != after.description
    ensures "completed" in paths <==> before.completed != after.completed
  {
    (if before.description != after.description then {"description"} else {})
    + (if before.completed != after.completed then {"completed"} else {})
  }
}
