/**
 * `POST /api/generate-prompt`: the request guards, the lookups the route depends
 * on (given here as their results) and the composition of the final prompt.
 */
module GeneratePromptRoute {
  import opened Wrappers
  import opened Entries
  import opened Composer
  import opened Api

  /** The destructured request body; a missing value map is `None` and reads as `{}`. */
  datatype GenerateBody = GenerateBody(
    appId: Option<JsValue>,
    taskName: Option<JsValue>,
    globalValues: Option<seq<(string, string)>>,
    taskValues: Option<seq<(string, string)>>,
    fieldValues: Option<seq<(string, string)>>,
    runtimeContext: Option<seq<(string, string)>>,
    fixedContent: Option<string>)

  /** The task row found for `(app_id, task_name)`, and the app row found for `app_id`. */
  datatype TaskRow = TaskRow(systemHeader: Option<string>)
  datatype AppRow = AppRow(systemHeader: Option<string>)

  /** `= {}` in the destructuring. */
  function OrEmpty(values: Option<seq<(string, string)>>): (r: seq<(string, string)>)
    ensures values.None? ==> r == []
    ensures values.Some? ==> r == values.value
  {
    if values.Some? then values.value else []
  }

  /** The request lies in the modelled domain: keys safe to splice into a pattern, no `$` in replacements. */
  predicate Admissible(body: GenerateBody) {
    ValidValues(OrEmpty(body.globalValues)) && ValidValues(OrEmpty(body.taskValues))
    && ValidValues(OrEmpty(body.fieldValues)) && ValidValues(OrEmpty(body.runtimeContext))
    && (body.fixedContent.Some? ==> ValidReplacement(body.fixedContent.value))
  }

  /** `{ ...global_values, ...task_values, ...field_values, ...runtime_context }` for this body. */
  function AllValues(body: GenerateBody): seq<(string, string)> {
    MergeValues(OrEmpty(body.globalValues), OrEmpty(body.taskValues), OrEmpty(body.fieldValues), OrEmpty(body.runtimeContext))
  }

  const RequiredMessage := "app_id and task_name are required"

  function NoTemplateMessage(appId: Option<JsValue>, taskName: Option<JsValue>): string {
    "No template found for app_id " + Display(appId) + " and task_name \"" + Display(taskName)
      + "\". Please save a template in the builder."
  }

  function ChatgptUrl(prompt: string, encode: string -> string): string {
    "https://chatgpt.com/?q=" + encode(prompt) + "&embed=true"
  }

  /** `{ success: true, prompt, chatgpt_url }`. */
  function PromptReply(prompt: string, url: string): (r: Response)
    ensures r == Succeeded(map["prompt" := JsStr(prompt), "chatgpt_url" := JsStr(url)])
    ensures r.body.Keys == {"success", "prompt", "chatgpt_url"}
  {
    Succeeded(map["prompt" := JsStr(prompt), "chatgpt_url" := JsStr(url)])
  }

  /** Every guard of the route passes. */
  predicate Passes(request: Result<GenerateBody, Thrown>, client: Client, task: Option<TaskRow>,
                   app: Option<AppRow>, templateRows: seq<string>) {
    request.Ok? && Truthy(request.value.appId) && Truthy(request.value.taskName)
    && client.Configured? && task.Some? && app.Some? && |templateRows| > 0
  }

  /**
   * The route. `request` is what `req.json()` produced, `client` what
   * `getSupabaseServer` produced, `task`, `app` and `templateRows` what the three
   * queries returned (`templateRows` newest first), and `encode` stands for
   * `encodeURIComponent`.
   */
  method GeneratePrompt(request: Result<GenerateBody, Thrown>, client: Client, task: Option<TaskRow>,
                        app: Option<AppRow>, templateRows: seq<string>, encode: string -> string)
    returns (r: Response)
    requires request.Ok? ==> Admissible(request.value)
    ensures request.Err? ==> r == Failure(500, "Internal server error")
    ensures request.Ok? && !(Truthy(request.value.appId) && Truthy(request.value.taskName)) ==>
              r == Failure(400, RequiredMessage)
    ensures request.Ok? && Truthy(request.value.appId) && Truthy(request.value.taskName) ==>
              && (client.Unconfigured? ==> r == Failure(500, "Internal server error"))
              && (client.Configured? && task.None? ==> r == Failure(404, "Task not found in this app"))
              && (client.Configured? && task.Some? && app.None? ==> r == Failure(404, "App not found"))
              && (client.Configured? && task.Some? && app.Some? && |templateRows| == 0 ==>
                    r == Failure(404, NoTemplateMessage(request.value.appId, request.value.taskName)))
    ensures r.status == 200 <==> Passes(request, client, task, app, templateRows)
    ensures Passes(request, client, task, app, templateRows) ==>
              var prompt := ComposeSpec(task.value.systemHeader, app.value.systemHeader, templateRows[0],
                                        AllValues(request.value), request.value.fixedContent);
              && r == PromptReply(prompt, ChatgptUrl(prompt, encode))
              && CleanPrompt(prompt) == prompt
  {
    if request.Err? {
      return Failure(500, "Internal server error");
    }
    var body := request.value;
    if !Truthy(body.appId) || !Truthy(body.taskName) {
      return Failure(400, RequiredMessage);
    }
    if client.Unconfigured? {
      return Failure(500, "Internal server error");
    }
    if task.None? {
      return Failure(404, "Task not found in this app");
    }
    if app.None? {
      return Failure(404, "App not found");
    }
    if |templateRows| == 0 {
      return Failure(404, NoTemplateMessage(body.appId, body.taskName));
    }
    var allValues := AllValues(body);
    MergeValuesValid(OrEmpty(body.globalValues), OrEmpty(body.taskValues), OrEmpty(body.fieldValues), OrEmpty(body.runtimeContext));
    var prompt := Compose(task.value.systemHeader, app.value.systemHeader, templateRows[0], allValues, body.fixedContent);
    r := PromptReply(prompt, ChatgptUrl(prompt, encode));
  }

  /** A value from a higher layer reaches the prompt in place of a lower layer's value for the same key. */
  lemma RuntimeContextWins(body: GenerateBody, key: string, v: string)
    requires Lookup(OrEmpty(body.runtimeContext), key) == Some(v)
    ensures Lookup(AllValues(body), key) == Some(v)
  {
    MergePrecedence(OrEmpty(body.globalValues), OrEmpty(body.taskValues), OrEmpty(body.fieldValues), OrEmpty(body.runtimeContext), key);
  }
}
