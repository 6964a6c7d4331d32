/**
 * `/api/prompt-templates`: listing the templates of an app, creating one, and
 * updating one. The queries are given as functions from the filters and the
 * data they carry to the database's answer.
 */
module PromptTemplatesRoute {
  import opened Wrappers
  import opened Strings
  import opened Api

  // ---------------------------------------------------------------------------
  // GET /api/prompt-templates?app_id=…[&task_name=…]
  // ---------------------------------------------------------------------------

  const MissingAppIdParam := "Missing query param: app_id"

  /** The select's filters: always the app, and the task only when one is named. */
  function ListFilters(appId: string, taskName: Option<string>): (fs: seq<Filter>)
    ensures |fs| >= 1 && fs[0] == Eq("app_id", JsStr(appId))
    ensures |fs| == 2 <==> Given(taskName)
    ensures Given(taskName) ==> fs[1] == Eq("task_name", JsStr(taskName.value))
  {
    [Eq("app_id", JsStr(appId))] + if Given(taskName) then [Eq("task_name", JsStr(taskName.value))] else []
  }

  /** The GET handler; `select(filters)` is what the select answers, newest first. */
  function ListTemplates(appId: Option<string>, taskName: Option<string>, client: Client,
                         select: seq<Filter> -> DbOutcome): (r: Response)
    ensures !Given(appId) ==> r == Failure(400, MissingAppIdParam)
    ensures Given(appId) && client.Unconfigured? ==> r == ClassifyThrown(client.thrown)
    ensures Given(appId) && client.Configured? && select(ListFilters(appId.value, taskName)).DbFailed? ==>
              r == DbErrorResponse(select(ListFilters(appId.value, taskName)).error)
    ensures r.status == 200 <==> Given(appId) && client.Configured? && select(ListFilters(appId.value, taskName)).DbOk?
    ensures r.status == 200 ==>
              var data := select(ListFilters(appId.value, taskName)).data;
              r == Succeeded(map["templates" := if Truthy(Some(data)) then data else JsArray([])])
  {
    if !Given(appId) then Failure(400, MissingAppIdParam)
    else if client.Unconfigured? then ClassifyThrown(client.thrown)
    else match select(ListFilters(appId.value, taskName))
      case DbFailed(e) => DbErrorResponse(e)
      case DbOk(data) => Succeeded(map["templates" := if Truthy(Some(data)) then data else JsArray([])])
  }

  // ---------------------------------------------------------------------------
  // POST /api/prompt-templates
  // ---------------------------------------------------------------------------

  const MissingCreateFields := "Missing required fields: app_id, task_name, and template are required"
  const TemplateNotText := "Template must be a non-empty string"
  const DuplicateTemplate := "A template already exists for this app and task combination"

  /** The POST checks: all three present and truthy, then a template that is a non-blank string. */
  function CreateCheck(body: Body): (r: Option<Response>)
    ensures r.None? <==> Truthy(Get(body, "app_id")) && Truthy(Get(body, "task_name")) && NonBlankString(Get(body, "template"))
    ensures !(Truthy(Get(body, "app_id")) && Truthy(Get(body, "task_name")) && Truthy(Get(body, "template"))) ==>
              r == Some(Failure(400, MissingCreateFields))
    ensures Truthy(Get(body, "app_id")) && Truthy(Get(body, "task_name")) && Truthy(Get(body, "template"))
            && !NonBlankString(Get(body, "template")) ==>
              r == Some(Failure(400, TemplateNotText))
  {
    if !(Truthy(Get(body, "app_id")) && Truthy(Get(body, "task_name")) && Truthy(Get(body, "template"))) then
      Some(Failure(400, MissingCreateFields))
    else if !NonBlankString(Get(body, "template")) then Some(Failure(400, TemplateNotText))
    else None
  }

  /** `{ app_id, task_name, template }`. */
  function CreateRecord(body: Body): (record: Body)
    requires CreateCheck(body).None?
    ensures record.Keys == {"app_id", "task_name", "template"}
    ensures forall k :: k in record ==> record[k] == body[k]
  {
    map["app_id" := body["app_id"], "task_name" := body["task_name"], "template" := body["template"]]
  }

  /** The POST handler; `insert(record)` is what the insert answers. */
  function CreateTemplate(request: Result<Body, Thrown>, client: Client, insert: Body -> DbOutcome): (r: Response)
    ensures request.Err? ==> r == ClassifyThrown(request.error)
    ensures request.Ok? && CreateCheck(request.value).Some? ==> r == CreateCheck(request.value).value
    ensures request.Ok? && CreateCheck(request.value).None? && client.Unconfigured? ==> r == ClassifyThrown(client.thrown)
    ensures request.Ok? && CreateCheck(request.value).None? && client.Configured? ==>
              var outcome := insert(CreateRecord(request.value));
              r == if outcome.DbOk? then Succeeded(map["template" := outcome.data]) else InsertErrorResponse(DuplicateTemplate, outcome.error)
    ensures r.status == 409 ==> request.Ok? && insert(CreateRecord(request.value)).DbFailed?
                                && IsDuplicate(insert(CreateRecord(request.value)).error)
  {
    if request.Err? then ClassifyThrown(request.error)
    else match CreateCheck(request.value)
      case Some(fail) => fail
      case None =>
        if client.Unconfigured? then ClassifyThrown(client.thrown)
        else match insert(CreateRecord(request.value))
          case DbOk(data) => Succeeded(map["template" := data])
          case DbFailed(e) => InsertErrorResponse(DuplicateTemplate, e)
  }

  // ---------------------------------------------------------------------------
  // PATCH /api/prompt-templates
  // ---------------------------------------------------------------------------

  const MissingPatchFields := "Missing required fields: app_id and (task_name or id) are required"
  const NewNameNotText := "new_task_name must be a non-empty string"
  const NothingToUpdate := "No fields to update. Provide template or new_task_name"

  /** The row is identified: an app and either a task name or an id. */
  predicate Identified(body: Body) {
    Truthy(Get(body, "app_id")) && (Truthy(Get(body, "task_name")) || Truthy(Get(body, "id")))
  }

  /** A key that is given (present, so not `undefined`) but is not a non-blank string. */
  predicate BadText(body: Body, key: string) {
    key in body && !NonBlankString(Get(body, key))
  }

  /**
   * `updateData`: `template` when given, and `new_task_name` stored as
   * `task_name` when given; a given value that is not a non-blank string is
   * refused, `template` first.
   */
  method BuildUpdate(body: Body) returns (result: Result<Body, Response>)
    ensures result.Err? <==> BadText(body, "template") || BadText(body, "new_task_name")
    ensures BadText(body, "template") ==> result == Err(Failure(400, TemplateNotText))
    ensures !BadText(body, "template") && BadText(body, "new_task_name") ==> result == Err(Failure(400, NewNameNotText))
    ensures result.Ok? ==>
              result.value.Keys == (if "template" in body then {"template"} else {})
                                   + (if "new_task_name" in body then {"task_name"} else {})
    ensures result.Ok? && "template" in body ==> result.value["template"] == body["template"]
    ensures result.Ok? && "new_task_name" in body ==> result.value["task_name"] == body["new_task_name"]
  {
    var updateData: Body := map[];
    if "template" in body {
      if !NonBlankString(Get(body, "template")) {
        return Err(Failure(400, TemplateNotText));
      }
      updateData := updateData["template" := body["template"]];
    }
    if "new_task_name" in body {
      if !NonBlankString(Get(body, "new_task_name")) {
        return Err(Failure(400, NewNameNotText));
      }
      updateData := updateData["task_name" := body["new_task_name"]];
    }
    return Ok(updateData);
  }

  /** The update data is accepted and not empty: nothing given is bad, and something is given. */
  predicate Updatable(body: Body) {
    && !BadText(body, "template") && !BadText(body, "new_task_name")
    && ("template" in body || "new_task_name" in body)
  }

  /** The row filters: the app, then the id when it is truthy, else the task name. */
  method SelectRow(body: Body) returns (query: seq<Filter>)
    requires Identified(body)
    ensures |query| == 2 && query[0] == Eq("app_id", body["app_id"])
    ensures Truthy(Get(body, "id")) ==> query[1] == Eq("id", body["id"])
    ensures !Truthy(Get(body, "id")) ==> query[1] == Eq("task_name", body["task_name"])
  {
    query := [Eq("app_id", body["app_id"])];
    if Truthy(Get(body, "id")) {
      query := query + [Eq("id", body["id"])];
    } else {
      query := query + [Eq("task_name", body["task_name"])];
    }
  }

  /** The 404 text: it always names the `task_name` of the body, even when the row was selected by id. */
  function NotFoundMessage(body: Body): string {
    "No template found for app_id " + Display(Get(body, "app_id")) + " and task_name \""
      + Display(Get(body, "task_name")) + "\""
  }

  /** What a failed update turns into: PostgREST's no-row code first, then the RLS check. */
  function UpdateError(body: Body, e: DbError): (r: Response)
    ensures e.code == Some("PGRST116") ==> r == Failure(404, NotFoundMessage(body))
    ensures e.code != Some("PGRST116") && IsPermissionDenied(e) ==> r == RlsResponse(e)
    ensures e.code != Some("PGRST116") && !IsPermissionDenied(e) ==> r == DbErrorResponse(e)
  {
    if e.code == Some("PGRST116") then Failure(404, NotFoundMessage(body))
    else if IsPermissionDenied(e) then RlsResponse(e)
    else DbErrorResponse(e)
  }

  /**
   * The PATCH handler; `update(data, query)` is what the update answers. The
   * client is created before the update data is checked, so a configuration
   * error wins over a bad template.
   */
  method UpdateTemplate(request: Result<Body, Thrown>, client: Client, update: (Body, seq<Filter>) -> DbOutcome)
    returns (r: Response, sent: Option<(Body, seq<Filter>)>)
    ensures request.Err? ==> r == ClassifyThrown(request.error) && sent.None?
    ensures request.Ok? && !Identified(request.value) ==> r == Failure(400, MissingPatchFields) && sent.None?
    ensures request.Ok? && Identified(request.value) && client.Unconfigured? ==>
              r == ClassifyThrown(client.thrown) && sent.None?
    ensures request.Ok? && Identified(request.value) && client.Configured? ==>
              var body := request.value;
              && (BadText(body, "template") ==> r == Failure(400, TemplateNotText) && sent.None?)
              && (!BadText(body, "template") && BadText(body, "new_task_name") ==>
                    r == Failure(400, NewNameNotText) && sent.None?)
              && (!BadText(body, "template") && !BadText(body, "new_task_name")
                  && "template" !in body && "new_task_name" !in body ==>
                    r == Failure(400, NothingToUpdate) && sent.None?)
    ensures sent.Some? <==> request.Ok? && Identified(request.value) && client.Configured? && Updatable(request.value)
    ensures sent.Some? ==>
              && sent.value.0.Keys == (if "template" in request.value then {"template"} else {})
                                      + (if "new_task_name" in request.value then {"task_name"} else {})
              && ("template" in request.value ==> sent.value.0["template"] == request.value["template"])
              && ("new_task_name" in request.value ==> sent.value.0["task_name"] == request.value["new_task_name"])
              && |sent.value.1| == 2 && sent.value.1[0] == Eq("app_id", request.value["app_id"])
              && (Truthy(Get(request.value, "id")) ==> sent.value.1[1] == Eq("id", request.value["id"]))
              && (!Truthy(Get(request.value, "id")) ==> sent.value.1[1] == Eq("task_name", request.value["task_name"]))
              && var outcome := update(sent.value.0, sent.value.1);
                 r == if outcome.DbOk? then Succeeded(map["template" := outcome.data])
                      else UpdateError(request.value, outcome.error)
    ensures r.status == 200 ==> sent.Some?
  {
    sent := None;
    if request.Err? {
      return ClassifyThrown(request.error), sent;
    }
    var body := request.value;
    if !Identified(body) {
      return Failure(400, MissingPatchFields), sent;
    }
    if client.Unconfigured? {
      return ClassifyThrown(client.thrown), sent;
    }
    var built := BuildUpdate(body);
    if built.Err? {
      return built.error, sent;
    }
    var updateData := built.value;
    if |updateData| == 0 {
      assert updateData.Keys == {};
      return Failure(400, NothingToUpdate), sent;
    }
    var query := SelectRow(body);
    sent := Some((updateData, query));
    match update(updateData, query)
    case DbOk(data) =>
      r := Succeeded(map["template" := data]);
    case DbFailed(e) =>
      r := UpdateError(body, e);
  }
}
