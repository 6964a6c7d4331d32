/**
 * `POST /api/apps`: creating an app. The insert is given as a function from
 * the record sent to what the database answers.
 */
module AppsRoute {
  import opened Wrappers
  import opened Strings
  import opened Api

  const MissingName := "Missing name"

  /** The extra advice the apps route adds to the RLS reply. */
  const RlsDiagnostic := "If you see this error, the service role key is not bypassing RLS. Check: 1) SUPABASE_SERVICE_ROLE_KEY is set correctly in .env.local, 2) Key matches the one from Supabase dashboard (Settings > API > service_role key)"

  /** `{ name, system_header: system_header || null }`. */
  function AppRecord(body: Body): (record: Body)
    requires Truthy(Get(body, "name"))
    ensures record.Keys == {"name", "system_header"}
    ensures record["name"] == body["name"]
    ensures !Truthy(Get(body, "system_header")) ==> record["system_header"] == JsNull
    ensures Truthy(Get(body, "system_header")) ==> record["system_header"] == body["system_header"]
  {
    map["name" := body["name"], "system_header" := OrNull(Get(body, "system_header"))]
  }

  /** The shared RLS reply with the diagnostic added. */
  function AppRlsResponse(e: DbError): (r: Response)
    ensures r.status == 500 && IsFailure(r) && ErrorText(r) == Some(RlsError)
    ensures "hint" in r.body && r.body["hint"] == JsStr(RlsHint)
    ensures "diagnostic" in r.body && r.body["diagnostic"] == JsStr(RlsDiagnostic)
    ensures "details" in r.body <==> e.message.Some?
    ensures e.message.Some? ==> r.body["details"] == JsStr(e.message.value)
    ensures r.body.Keys <= {"success", "error", "hint", "details", "diagnostic"}
  {
    var rls := RlsResponse(e);
    Response(500, rls.body["diagnostic" := JsStr(RlsDiagnostic)])
  }

  /** A failed insert: the RLS reply with its diagnostic, or the raw error; there is no duplicate case. */
  function AppInsertError(e: DbError): (r: Response)
    ensures r.status == 500 && IsFailure(r)
    ensures "diagnostic" in r.body <==> IsPermissionDenied(e)
    ensures IsPermissionDenied(e) ==> r == AppRlsResponse(e)
    ensures !IsPermissionDenied(e) ==> r == DbErrorResponse(e)
  {
    if IsPermissionDenied(e) then AppRlsResponse(e) else DbErrorResponse(e)
  }

  /** The POST handler; `insert(record)` is what the insert answers. */
  function CreateApp(request: Result<Body, Thrown>, client: Client, insert: Body -> DbOutcome): (r: Response)
    ensures request.Err? ==> r == ClassifyThrown(request.error)
    ensures request.Ok? && !Truthy(Get(request.value, "name")) ==> r == Failure(400, MissingName)
    ensures request.Ok? && Truthy(Get(request.value, "name")) && client.Unconfigured? ==>
              r == ClassifyThrown(client.thrown)
    ensures request.Ok? && Truthy(Get(request.value, "name")) && client.Configured? ==>
              var outcome := insert(AppRecord(request.value));
              r == if outcome.DbOk? then Succeeded(map["app" := outcome.data]) else AppInsertError(outcome.error)
    ensures r.status == 200 || r.status == 400 || r.status == 500
  {
    if request.Err? then ClassifyThrown(request.error)
    else if !Truthy(Get(request.value, "name")) then Failure(400, MissingName)
    else if client.Unconfigured? then ClassifyThrown(client.thrown)
    else match insert(AppRecord(request.value))
      case DbOk(data) => Succeeded(map["app" := data])
      case DbFailed(e) => AppInsertError(e)
  }
}
