/**
 * `/api/task-fields`: listing the fields of a task, creating one, and saving a
 * new order for several. The database calls are given as their results.
 */
module TaskFieldsRoute {
  import opened Wrappers
  import opened Strings
  import opened Api

  // ---------------------------------------------------------------------------
  // GET /api/task-fields?app_id=…&task_name=…
  // ---------------------------------------------------------------------------

  const MissingAppIdParam := "Missing app_id query parameter"
  const MissingTaskNameParam := "Missing task_name query parameter"

  /** The query-parameter checks: `app_id` first, then `task_name`. */
  function GetParamsCheck(appId: Option<string>, taskName: Option<string>): (r: Option<Response>)
    ensures r.None? <==> Given(appId) && Given(taskName)
    ensures !Given(appId) ==> r == Some(Failure(400, MissingAppIdParam))
    ensures Given(appId) && !Given(taskName) ==> r == Some(Failure(400, MissingTaskNameParam))
  {
    if !Given(appId) then Some(Failure(400, MissingAppIdParam))
    else if !Given(taskName) then Some(Failure(400, MissingTaskNameParam))
    else None
  }

  /** The GET handler, with `client` and `rows` the outcome of creating the client and of the select. */
  function GetTaskFields(appId: Option<string>, taskName: Option<string>, client: Client, rows: DbOutcome): (r: Response)
    ensures GetParamsCheck(appId, taskName).Some? ==> r == GetParamsCheck(appId, taskName).value
    ensures GetParamsCheck(appId, taskName).None? && client.Unconfigured? ==> r == ClassifyThrown(client.thrown)
    ensures GetParamsCheck(appId, taskName).None? && client.Configured? && rows.DbFailed? ==>
              r == DbErrorResponse(rows.error)
    ensures r.status == 200 <==> Given(appId) && Given(taskName) && client.Configured? && rows.DbOk?
    ensures r.status == 200 ==>
              r == Succeeded(map["fields" := if Truthy(Some(rows.data)) then rows.data else JsArray([])])
  {
    match GetParamsCheck(appId, taskName)
    case Some(fail) => fail
    case None =>
      if client.Unconfigured? then ClassifyThrown(client.thrown)
      else match rows
        case DbFailed(e) => DbErrorResponse(e)
        case DbOk(data) => Succeeded(map["fields" := if Truthy(Some(data)) then data else JsArray([])])
  }

  // ---------------------------------------------------------------------------
  // POST /api/task-fields
  // ---------------------------------------------------------------------------

  const MissingFieldsMessage :=
    "Missing required fields: app_id, task_name, field_name, field_label, and field_type are required"
  const ValidFieldTypes := ["text", "textarea", "select", "number", "runtime"]
  const SelectOptionsMessage := "Field type 'select' requires an 'options' array with at least one option"

  function InvalidTypeMessage(): string {
    "Invalid field_type. Must be one of: " + Join(ValidFieldTypes, ", ")
  }

  /** The five keys a new field must carry, each truthy. */
  predicate HasRequired(body: Body) {
    Truthy(Get(body, "app_id")) && Truthy(Get(body, "task_name")) && Truthy(Get(body, "field_name"))
    && Truthy(Get(body, "field_label")) && Truthy(Get(body, "field_type"))
  }

  /** `validFieldTypes.includes(field_type)`: a string equal to one of the five names. */
  predicate KnownType(body: Body) {
    var t := Get(body, "field_type");
    t.Some? && t.value.JsStr? && t.value.s in ValidFieldTypes
  }

  predicate IsSelect(body: Body) {
    Get(body, "field_type") == Some(JsStr("select"))
  }

  /** `options` is an array with at least one element. */
  predicate HasOptions(body: Body) {
    var o := Get(body, "options");
    o.Some? && o.value.JsArray? && |o.value.items| > 0
  }

  /** The three checks of the POST handler, in order; the first that fails decides the reply. */
  function PostCheck(body: Body): (r: Option<Response>)
    ensures r.None? <==> HasRequired(body) && KnownType(body) && (IsSelect(body) ==> HasOptions(body))
    ensures !HasRequired(body) ==> r == Some(Failure(400, MissingFieldsMessage))
    ensures HasRequired(body) && !KnownType(body) ==> r == Some(Failure(400, InvalidTypeMessage()))
    ensures HasRequired(body) && KnownType(body) && IsSelect(body) && !HasOptions(body) ==>
              r == Some(Failure(400, SelectOptionsMessage))
  {
    if !HasRequired(body) then
      Some(Failure(400, MissingFieldsMessage))
    else if !KnownType(body) then Some(Failure(400, InvalidTypeMessage()))
    else if IsSelect(body) && !HasOptions(body) then Some(Failure(400, SelectOptionsMessage))
    else None
  }

  /** The keys the stored record has, whatever else the body holds. */
  const RecordKeys := {"app_id", "task_name", "field_name", "field_label", "field_type", "required", "order"}

  /**
   * `record` is the `fieldData` of `body`: the five required values,
   * `required ?? false` and `order ?? 0`, plus `options` for a select whose
   * options are truthy, and nothing else.
   */
  predicate IsFieldRecord(body: Body, record: Body) {
    && HasRequired(body)
    && record.Keys == RecordKeys + (if IsSelect(body) && Truthy(Get(body, "options")) then {"options"} else {})
    && record["app_id"] == body["app_id"] && record["task_name"] == body["task_name"]
    && record["field_name"] == body["field_name"] && record["field_label"] == body["field_label"]
    && record["field_type"] == body["field_type"]
    && record["required"] == OrDefault(Get(body, "required"), JsBool(false))
    && record["order"] == OrDefault(Get(body, "order"), JsNum(0))
    && ("options" in record ==> record["options"] == body["options"])
  }

  /** Builds `fieldData`, adding `options` to the record only for a select. */
  method BuildFieldRecord(body: Body) returns (record: Body)
    requires HasRequired(body)
    ensures IsFieldRecord(body, record)
  {
    record := map[
      "app_id" := body["app_id"],
      "task_name" := body["task_name"],
      "field_name" := body["field_name"],
      "field_label" := body["field_label"],
      "field_type" := body["field_type"],
      "required" := OrDefault(Get(body, "required"), JsBool(false)),
      "order" := OrDefault(Get(body, "order"), JsNum(0))];
    if Get(body, "field_type") == Some(JsStr("select")) && Truthy(Get(body, "options")) {
      record := record["options" := body["options"]];
    }
  }

  /** What a failed insert of a field turns into: the RLS reply, or the raw error. */
  function FieldInsertError(e: DbError): (r: Response)
    ensures r.status == 500 && IsFailure(r)
    ensures IsPermissionDenied(e) ==> r == RlsResponse(e)
    ensures !IsPermissionDenied(e) ==> r == DbErrorResponse(e)
  {
    if IsPermissionDenied(e) then RlsResponse(e) else DbErrorResponse(e)
  }

  /**
   * The POST handler. `request` is what `req.json()` produced, `client` the
   * outcome of creating the client and `insert(record)` what the insert of
   * `record` answers; `sent` is the record handed to the insert, if any.
   */
  method PostTaskField(request: Result<Body, Thrown>, client: Client, insert: Body -> DbOutcome)
    returns (r: Response, sent: Option<Body>)
    ensures request.Err? ==> r == ClassifyThrown(request.error)
    ensures request.Ok? && PostCheck(request.value).Some? ==> r == PostCheck(request.value).value
    ensures request.Ok? && PostCheck(request.value).None? && client.Unconfigured? ==> r == ClassifyThrown(client.thrown)
    ensures sent.Some? <==> request.Ok? && PostCheck(request.value).None? && client.Configured?
    ensures sent.Some? ==>
              && IsFieldRecord(request.value, sent.value)
              && var outcome := insert(sent.value);
                 r == if outcome.DbOk? then Succeeded(map["field" := outcome.data]) else FieldInsertError(outcome.error)
    ensures r.status == 200 <==> sent.Some? && insert(sent.value).DbOk?
  {
    sent := None;
    if request.Err? {
      return ClassifyThrown(request.error), sent;
    }
    var body := request.value;
    var check := PostCheck(body);
    if check.Some? {
      return check.value, sent;
    }
    if client.Unconfigured? {
      return ClassifyThrown(client.thrown), sent;
    }
    var record := BuildFieldRecord(body);
    sent := Some(record);
    match insert(record)
    case DbFailed(e) =>
      if IsPermissionDenied(e) {
        return RlsResponse(e), sent;
      }
      return DbErrorResponse(e), sent;
    case DbOk(data) =>
      return Succeeded(map["field" := data]), sent;
  }

  // ---------------------------------------------------------------------------
  // PATCH /api/task-fields: `{ updates: [{ id, order }, …] }`
  // ---------------------------------------------------------------------------

  const MissingUpdates := "Missing updates array"

  /** `u?.id`: the `id` of an object, `undefined` for anything else. */
  function IdOf(u: JsValue): (id: Option<JsValue>)
    ensures id.Some? <==> u.JsObject? && "id" in u.fields
  {
    if u.JsObject? && "id" in u.fields then Some(u.fields["id"]) else None
  }

  /** `u.order ?? 0`. */
  function OrderOf(u: JsValue): JsValue {
    OrDefault(if u.JsObject? && "order" in u.fields then Some(u.fields["order"]) else None, JsNum(0))
  }

  /** The writes the loop means to make: `(id, order ?? 0)` for each entry with a truthy `id`, in order. */
  function PlannedWrites(updates: seq<JsValue>): (ws: seq<(JsValue, JsValue)>)
    ensures |ws| <= |updates|
  {
    if |updates| == 0 then []
    else
      var u := updates[0];
      (if Truthy(IdOf(u)) then [(IdOf(u).value, OrderOf(u))] else []) + PlannedWrites(updates[1..])
  }

  /** The position of the first planned write the database refuses, or the count of writes when none is refused. */
  function FirstRefused(ws: seq<(JsValue, JsValue)>, write: (JsValue, JsValue) -> Option<DbError>): (n: nat)
    ensures n <= |ws|
    ensures forall i :: 0 <= i < n ==> write(ws[i].0, ws[i].1).None?
    ensures n < |ws| ==> write(ws[n].0, ws[n].1).Some?
  {
    if |ws| == 0 then 0
    else if write(ws[0].0, ws[0].1).Some? then 0
    else 1 + FirstRefused(ws[1..], write)
  }

  lemma PlannedWritesStep(updates: seq<JsValue>, i: int)
    requires 0 <= i < |updates|
    ensures PlannedWrites(updates[..i + 1]) ==
              PlannedWrites(updates[..i]) + (if Truthy(IdOf(updates[i])) then [(IdOf(updates[i]).value, OrderOf(updates[i]))] else [])
  {
    assert updates[..i + 1] == updates[..i] + [updates[i]];
    PlannedWritesAppend(updates[..i], [updates[i]]);
    assert [updates[i]][1..] == [];
  }

  lemma FirstRefusedPrefix(ws: seq<(JsValue, JsValue)>, more: seq<(JsValue, JsValue)>,
                           write: (JsValue, JsValue) -> Option<DbError>)
    requires FirstRefused(ws, write) == |ws|
    ensures FirstRefused(ws + more, write) == |ws| + FirstRefused(more, write)
  {
    if |ws| > 0 {
      assert (ws + more)[1..] == ws[1..] + more;
      FirstRefusedPrefix(ws[1..], more, write);
    } else {
      assert ws + more == more;
    }
  }

  lemma FirstRefusedAt(ws: seq<(JsValue, JsValue)>, more: seq<(JsValue, JsValue)>,
                       write: (JsValue, JsValue) -> Option<DbError>)
    requires FirstRefused(ws, write) < |ws|
    ensures FirstRefused(ws + more, write) == FirstRefused(ws, write)
  {
    if write(ws[0].0, ws[0].1).None? {
      assert (ws + more)[1..] == ws[1..] + more;
      FirstRefusedAt(ws[1..], more, write);
    }
  }

  /**
   * The PATCH handler. `write(id, order)` is what the database answers to
   * `update({ order }).eq('id', id)`; `writes` are the updates made, in order.
   */
  method PatchOrders(request: Result<Body, Thrown>, client: Client, write: (JsValue, JsValue) -> Option<DbError>)
    returns (r: Response, writes: seq<(JsValue, JsValue)>)
    ensures request.Err? ==> r == Opaque500(request.error) && writes == []
    ensures request.Ok? && !(Get(request.value, "updates").Some? && Get(request.value, "updates").value.JsArray?
                             && |Get(request.value, "updates").value.items| > 0) ==>
              r == Failure(400, MissingUpdates) && writes == []
    ensures request.Ok? && Get(request.value, "updates").Some? && Get(request.value, "updates").value.JsArray?
            && |Get(request.value, "updates").value.items| > 0 ==>
              var planned := PlannedWrites(Get(request.value, "updates").value.items);
              var n := FirstRefused(planned, write);
              && (client.Unconfigured? ==> r == Opaque500(client.thrown) && writes == [])
              && (client.Configured? && n == |planned| ==> r == Succeeded(map[]) && writes == planned)
              && (client.Configured? && n < |planned| ==>
                    r == MessageOnlyResponse(write(planned[n].0, planned[n].1).value) && writes == planned[..n + 1])
  {
    writes := [];
    if request.Err? {
      return Opaque500(request.error), writes;
    }
    var updates := Get(request.value, "updates");
    if !(updates.Some? && updates.value.JsArray? && |updates.value.items| > 0) {
      return Failure(400, MissingUpdates), writes;
    }
    if client.Unconfigured? {
      return Opaque500(client.thrown), writes;
    }
    var items := updates.value.items;
    ghost var planned := PlannedWrites(items);
    for i := 0 to |items|
      invariant writes == PlannedWrites(items[..i])
      invariant FirstRefused(writes, write) == |writes|
    {
      PlannedWritesStep(items, i);
      var u := items[i];
      if !Truthy(IdOf(u)) {
        continue;
      }
      var w := (IdOf(u).value, OrderOf(u));
      var error := write(w.0, w.1);
      if error.Some? {
        RefusedHere(items, i, writes, w, write);
        writes := writes + [w];
        return MessageOnlyResponse(error.value), writes;
      }
      FirstRefusedPrefix(writes, [w], write);
      writes := writes + [w];
    }
    assert items[..|items|] == items;
    return Succeeded(map[]), writes;
  }

  /** A refused write at entry `i` is the first refusal of the whole plan. */
  lemma RefusedHere(items: seq<JsValue>, i: int, done: seq<(JsValue, JsValue)>, w: (JsValue, JsValue),
                    write: (JsValue, JsValue) -> Option<DbError>)
    requires 0 <= i < |items|
    requires done + [w] == PlannedWrites(items[..i + 1])
    requires FirstRefused(done, write) == |done|
    requires write(w.0, w.1).Some?
    ensures var planned := PlannedWrites(items);
            |done| < |planned| && FirstRefused(planned, write) == |done|
            && planned[..|done| + 1] == done + [w] && planned[|done|] == w
  {
    assert items == items[..i + 1] + items[i + 1..];
    PlannedWritesAppend(items[..i + 1], items[i + 1..]);
    FirstRefusedPrefix(done, [w], write);
    FirstRefusedAt(done + [w], PlannedWrites(items[i + 1..]), write);
    var planned := PlannedWrites(items);
    assert planned == (done + [w]) + PlannedWrites(items[i + 1..]);
    assert planned[..|done| + 1] == done + [w];
  }

  lemma PlannedWritesAppend(a: seq<JsValue>, b: seq<JsValue>)
    ensures PlannedWrites(a + b) == PlannedWrites(a) + PlannedWrites(b)
  {
    if |a| == 0 {
      assert a + b == b;
    } else {
      var u := a[0];
      var head := if Truthy(IdOf(u)) then [(IdOf(u).value, OrderOf(u))] else [];
      assert (a + b)[0] == u && (a + b)[1..] == a[1..] + b;
      assert PlannedWrites(a + b) == head + PlannedWrites(a[1..] + b);
      assert PlannedWrites(a) == head + PlannedWrites(a[1..]);
      PlannedWritesAppend(a[1..], b);
    }
  }

  /** An entry without a truthy `id` leads to no write. */
  lemma SkippedEntries(updates: seq<JsValue>, w: (JsValue, JsValue))
    requires w in PlannedWrites(updates)
    ensures exists i :: 0 <= i < |updates| && Truthy(IdOf(updates[i])) && w == (IdOf(updates[i]).value, OrderOf(updates[i]))
  {
    if |updates| > 0 {
      var u := updates[0];
      if !(Truthy(IdOf(u)) && w == (IdOf(u).value, OrderOf(u))) {
        SkippedEntries(updates[1..], w);
        var i :| 0 <= i < |updates[1..]| && Truthy(IdOf(updates[1..][i]))
                 && w == (IdOf(updates[1..][i]).value, OrderOf(updates[1..][i]));
        assert updates[i + 1] == updates[1..][i];
      }
    }
  }
}
