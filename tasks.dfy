/**
 * `/api/tasks`: creating a task of an app, and setting a task's `has_form`
 * flag. The database calls are given as functions from what is sent to what
 * the database answers.
 */
module TasksRoute {
  import opened Wrappers
  import opened Strings
  import opened Api

  // ---------------------------------------------------------------------------
  // POST /api/tasks
  // ---------------------------------------------------------------------------

  const MissingCreateFields := "app_id and task name required"
  const DuplicateTask := "A task with this name already exists"

  /**
   * What `!app_id || !name?.trim()` does with a body: it passes, it refuses,
   * or it throws, because a `name` that is neither a string nor `null` has no
   * `trim` method to call.
   */
  datatype Guard = Passes | Refused | Throws

  function CreateGuard(body: Body): (g: Guard)
    ensures g == Passes <==> Truthy(Get(body, "app_id")) && NonBlankString(Get(body, "name"))
    ensures g == Throws <==> Truthy(Get(body, "app_id")) && "name" in body
                             && body["name"] != JsNull && !body["name"].JsStr?
    ensures !Truthy(Get(body, "app_id")) ==> g == Refused
  {
    if !Truthy(Get(body, "app_id")) then Refused
    else match Get(body, "name")
      case None => Refused
      case Some(JsNull) => Refused
      case Some(JsStr(s)) => if Trim(s) == "" then Refused else Passes
      case Some(_) => Throws
  }

  /** `{ app_id, name: name.trim(), description: description || null, system_header: system_header || null }`. */
  function TaskRecord(body: Body): (record: Body)
    requires CreateGuard(body) == Passes
    ensures record.Keys == {"app_id", "name", "description", "system_header"}
    ensures record["app_id"] == body["app_id"]
    ensures record["name"].JsStr? && record["name"].s == Trim(body["name"].s)
    ensures record["name"].s != "" && Trimmed(record["name"].s)
    ensures record["description"] == OrNull(Get(body, "description"))
    ensures record["system_header"] == OrNull(Get(body, "system_header"))
  {
    map["app_id" := body["app_id"], "name" := JsStr(Trim(body["name"].s)),
        "description" := OrNull(Get(body, "description")), "system_header" := OrNull(Get(body, "system_header"))]
  }

  /**
   * Only the four columns are read from the body: two bodies that agree on
   * them give the same record, so `has_form` and any other key are never stored.
   */
  lemma TaskRecordIgnoresOtherKeys(a: Body, b: Body)
    requires CreateGuard(a) == Passes
    requires forall k :: k in {"app_id", "name", "description", "system_header"} ==> Get(a, k) == Get(b, k)
    ensures CreateGuard(b) == Passes && TaskRecord(a) == TaskRecord(b)
  {
    assert Get(a, "app_id") == Get(b, "app_id");
    assert Get(a, "name") == Get(b, "name");
    assert Get(a, "description") == Get(b, "description");
    assert Get(a, "system_header") == Get(b, "system_header");
  }

  /**
   * The POST handler. `typeError` is the message of the `TypeError` the
   * runtime raises for a `name` without `trim`; `insert(record)` is what the
   * insert answers.
   */
  function CreateTask(request: Result<Body, Thrown>, typeError: string, client: Client,
                      insert: Body -> DbOutcome): (r: Response)
    ensures request.Err? ==> r == ClassifyThrown(request.error)
    ensures request.Ok? && CreateGuard(request.value) == Refused ==> r == Failure(400, MissingCreateFields)
    ensures request.Ok? && CreateGuard(request.value) == Throws ==> r == ClassifyThrown(ThrownError(typeError))
    ensures request.Ok? && CreateGuard(request.value) == Passes && client.Unconfigured? ==>
              r == ClassifyThrown(client.thrown)
    ensures request.Ok? && CreateGuard(request.value) == Passes && client.Configured? ==>
              var outcome := insert(TaskRecord(request.value));
              r == if outcome.DbOk? then Succeeded(map["task" := outcome.data])
                   else InsertErrorResponse(DuplicateTask, outcome.error)
    ensures r.status == 200 ==> request.Ok? && CreateGuard(request.value) == Passes && client.Configured?
                                && insert(TaskRecord(request.value)).DbOk?
  {
    if request.Err? then ClassifyThrown(request.error)
    else
      var body := request.value;
      match CreateGuard(body)
      case Refused => Failure(400, MissingCreateFields)
      case Throws => ClassifyThrown(ThrownError(typeError))
      case Passes =>
        if client.Unconfigured? then ClassifyThrown(client.thrown)
        else match insert(TaskRecord(body))
          case DbOk(data) => Succeeded(map["task" := data])
          case DbFailed(e) => InsertErrorResponse(DuplicateTask, e)
  }

  // ---------------------------------------------------------------------------
  // PATCH /api/tasks
  // ---------------------------------------------------------------------------

  const MissingUpdateFields := "app_id and name required"

  /** `{ has_form }`: JSON drops the key when the body has none. */
  function HasFormUpdate(body: Body): (u: Body)
    ensures u.Keys <= {"has_form"}
    ensures "has_form" in u <==> "has_form" in body
    ensures "has_form" in u ==> u["has_form"] == body["has_form"]
  {
    if "has_form" in body then map["has_form" := body["has_form"]] else map[]
  }

  /** `.eq('app_id', app_id).eq('name', name)`. */
  function TaskFilters(body: Body): (fs: seq<Filter>)
    requires "app_id" in body && "name" in body
    ensures |fs| == 2 && fs[0] == Eq("app_id", body["app_id"]) && fs[1] == Eq("name", body["name"])
  {
    [Eq("app_id", body["app_id"]), Eq("name", body["name"])]
  }

  /**
   * The PATCH handler; `update(data, filters)` is what the update answers.
   * Whatever is thrown, the reply is the opaque 500.
   */
  function UpdateTask(request: Result<Body, Thrown>, client: Client, update: (Body, seq<Filter>) -> DbOutcome): (r: Response)
    ensures request.Err? ==> r == Opaque500(request.error)
    ensures request.Ok? && !(Truthy(Get(request.value, "app_id")) && Truthy(Get(request.value, "name"))) ==>
              r == Failure(400, MissingUpdateFields)
    ensures request.Ok? && Truthy(Get(request.value, "app_id")) && Truthy(Get(request.value, "name")) ==>
              if client.Unconfigured? then r == Opaque500(client.thrown)
              else
                var outcome := update(HasFormUpdate(request.value), TaskFilters(request.value));
                r == if outcome.DbOk? then Succeeded(map["task" := outcome.data]) else MessageOnlyResponse(outcome.error)
    ensures r.status == 200 || r.status == 400 || r.status == 500
  {
    if request.Err? then Opaque500(request.error)
    else
      var body := request.value;
      if !(Truthy(Get(body, "app_id")) && Truthy(Get(body, "name"))) then Failure(400, MissingUpdateFields)
      else if client.Unconfigured? then Opaque500(client.thrown)
      else match update(HasFormUpdate(body), TaskFilters(body))
        case DbOk(data) => Succeeded(map["task" := data])
        case DbFailed(e) => MessageOnlyResponse(e)
  }
}
