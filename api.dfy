/**
 * What the API routes share: JSON values and request bodies, JavaScript
 * truthiness and string conversion, JSON responses, the database error record
 * and the two error classifiers that every route repeats in its `catch` block
 * and after a failed insert or update.
 */
module Api {
  import opened Wrappers
  import opened Strings

  /** A parsed JSON value; numbers are modelled as integers. */
  datatype JsValue =
    | JsNull
    | JsBool(b: bool)
    | JsNum(n: int)
    | JsStr(s: string)
    | JsArray(items: seq<JsValue>)
    | JsObject(fields: map<string, JsValue>)

  /** A JSON object: a request body, or the body of a response. */
  type Body = map<string, JsValue>

  /** `body.key`, with `undefined` as `None`. */
  function Get(body: Body, key: string): (v: Option<JsValue>)
    ensures v.Some? <==> key in body
    ensures v.Some? ==> v.value == body[key]
  {
    if key in body then Some(body[key]) else None
  }

  /** JavaScript truthiness: `undefined`, `null`, `false`, `0` and `""` are falsy; arrays and objects are truthy. */
  predicate Truthy(v: Option<JsValue>) {
    match v
    case None => false
    case Some(JsNull) => false
    case Some(JsBool(b)) => b
    case Some(JsNum(n)) => n != 0
    case Some(JsStr(s)) => s != ""
    case Some(JsArray(_)) => true
    case Some(JsObject(_)) => true
  }

  /** `v ?? fallback`: the fallback replaces only `undefined` and `null`. */
  function OrDefault(v: Option<JsValue>, fallback: JsValue): (r: JsValue)
    ensures v.None? || v == Some(JsNull) ==> r == fallback
    ensures v.Some? && v.value != JsNull ==> r == v.value
  {
    if v.None? || v == Some(JsNull) then fallback else v.value
  }

  /** `v || null`: a falsy value is stored as `null`. */
  function OrNull(v: Option<JsValue>): (r: JsValue)
    ensures Truthy(v) ==> r == v.value
    ensures !Truthy(v) ==> r == JsNull
  {
    if Truthy(v) then v.value else JsNull
  }

  /** An optional string that is truthy: present and not empty, as `searchParams.get(...)` is tested. */
  predicate Given(p: Option<string>) {
    p.Some? && p.value != ""
  }

  /** `typeof v === "string" && v.trim().length > 0`. */
  predicate NonBlankString(v: Option<JsValue>) {
    v.Some? && v.value.JsStr? && Trim(v.value.s) != ""
  }

  function DigitChar(d: nat): (c: char)
    requires d < 10
    ensures '0' <= c <= '9' && DigitValue(c) == d
  {
    ('0' as int + d) as char
  }

  /** The value of a decimal digit character. */
  function DigitValue(c: char): int {
    c as int - '0' as int
  }

  /** The number a string of decimal digits denotes, read left to right (Horner's rule). */
  function DecimalValue(s: string): int
    decreases |s|
  {
    if |s| == 0 then 0 else 10 * DecimalValue(s[..|s| - 1]) + DigitValue(s[|s| - 1])
  }

  /**
   * The decimal digits of `n`, as `String(n)` writes them: digits only, no
   * leading zero, and reading them back gives `n`.
   */
  function NatToString(n: nat): (s: string)
    ensures |s| >= 1
    ensures forall i :: 0 <= i < |s| ==> '0' <= s[i] <= '9'
    ensures DecimalValue(s) == n
    ensures s[0] == '0' <==> n == 0
    ensures |s| > 1 ==> s[0] != '0'
    decreases n
  {
    if n < 10 then [DigitChar(n)]
    else
      var front := NatToString(n / 10);
      var s := front + [DigitChar(n % 10)];
      assert s[..|s| - 1] == front;
      s
  }

  /** `String(n)` for an integer: a minus sign before the digits of `-n` when `n` is negative. */
  function IntToString(n: int): (s: string)
    ensures |s| >= 1
    ensures n >= 0 ==> '0' <= s[0] <= '9' && DecimalValue(s) == n
    ensures n >= 0 && |s| > 1 ==> s[0] != '0'
    ensures n < 0 ==> |s| >= 2 && s[0] == '-' && '1' <= s[1] <= '9' && DecimalValue(s[1..]) == -n
    ensures forall i :: 0 < i < |s| ==> '0' <= s[i] <= '9'
  {
    if n >= 0 then NatToString(n)
    else
      var digits := NatToString(-n);
      assert ("-" + digits)[1..] == digits;
      "-" + digits
  }

  /** `String(v)` as a template literal writes it; `undefined` is written `undefined`. */
  function Display(v: Option<JsValue>): string {
    match v
    case None => "undefined"
    case Some(x) => DisplayValue(x)
  }

  function DisplayValue(x: JsValue): string
    decreases x, 1
  {
    match x
    case JsNull => "null"
    case JsBool(b) => if b then "true" else "false"
    case JsNum(n) => IntToString(n)
    case JsStr(s) => s
    case JsArray(items) => DisplayItems(items)
    case JsObject(_) => "[object Object]"
  }

  /** `Array.prototype.join(",")`: `null` elements are written as nothing. */
  function DisplayItems(items: seq<JsValue>): string
    decreases items, 0
  {
    if |items| == 0 then ""
    else
      var first := if items[0] == JsNull then "" else DisplayValue(items[0]);
      if |items| == 1 then first else first + "," + DisplayItems(items[1..])
  }

  /** A `NextResponse.json(body, { status })`. */
  datatype Response = Response(status: int, body: Body)

  /** `{ success: false, error: message }`. */
  function Failure(status: int, message: string): (r: Response)
    ensures r.status == status && r.body == map["success" := JsBool(false), "error" := JsStr(message)]
  {
    Response(status, map["success" := JsBool(false), "error" := JsStr(message)])
  }

  predicate IsFailure(r: Response) {
    "success" in r.body && r.body["success"] == JsBool(false)
  }

  /** The text of a response's `error` key, when it has one. */
  function ErrorText(r: Response): Option<string> {
    if "error" in r.body && r.body["error"].JsStr? then Some(r.body["error"].s) else None
  }

  /** `{ ...fields, key: v }` where a `v` of `undefined` leaves the key out, as `JSON.stringify` does. */
  function WithOptional(fields: Body, key: string, v: Option<string>): (b: Body)
    ensures v.Some? ==> b == fields[key := JsStr(v.value)]
    ensures v.None? ==> b == fields - {key}
  {
    if v.Some? then fields[key := JsStr(v.value)] else fields - {key}
  }

  /** `{ success: true, ...fields }` with status 200. */
  function Succeeded(fields: Body): (r: Response)
    ensures r.status == 200 && !IsFailure(r)
    ensures r.body.Keys == fields.Keys + {"success"}
    ensures forall k :: k in fields && k != "success" ==> r.body[k] == fields[k]
  {
    Response(200, fields["success" := JsBool(true)])
  }

  /** One `.eq(column, value)` of a query. */
  datatype Filter = Eq(column: string, value: JsValue)

  /** The error record Supabase returns; each part may be missing. */
  datatype DbError = DbError(code: Option<string>, message: Option<string>, details: Option<string>)

  /** The result of a database call: the returned row, or an error. */
  datatype DbOutcome = DbOk(data: JsValue) | DbFailed(error: DbError)

  /** `error.message?.includes(s)`. */
  predicate MessageHas(e: DbError, s: string) {
    e.message.Some? && Contains(e.message.value, s)
  }

  /** A unique-constraint violation: code `23505`, or a message mentioning a duplicate key. */
  predicate IsDuplicate(e: DbError) {
    e.code == Some("23505") || MessageHas(e, "duplicate key")
  }

  /** A row-level-security refusal: code `42501`, or a message mentioning a denied permission. */
  predicate IsPermissionDenied(e: DbError) {
    e.code == Some("42501") || MessageHas(e, "permission denied")
  }

  const RlsError := "RLS policy error - service role key may not be configured correctly"
  const RlsHint := "Verify SUPABASE_SERVICE_ROLE_KEY is set correctly in .env.local"
  const EnvHint := "Check your .env.local file has all required variables. See .env.local.example for reference."

  /** The 500 reply for a row-level-security refusal. */
  function RlsResponse(e: DbError): (r: Response)
    ensures r.status == 500 && IsFailure(r) && ErrorText(r) == Some(RlsError)
    ensures "hint" in r.body && r.body["hint"] == JsStr(RlsHint)
    ensures "details" in r.body <==> e.message.Some?
    ensures e.message.Some? ==> r.body["details"] == JsStr(e.message.value)
    ensures r.body.Keys <= {"success", "error", "hint", "details"}
  {
    var b := map["success" := JsBool(false), "error" := JsStr(RlsError), "hint" := JsStr(RlsHint)];
    Response(500, WithOptional(b, "details", e.message))
  }

  /** The 409 reply for a unique-constraint violation: a fixed message, with the database's own as details. */
  function ConflictResponse(message: string, e: DbError): (r: Response)
    ensures r.status == 409 && IsFailure(r) && ErrorText(r) == Some(message)
    ensures "details" in r.body <==> e.message.Some?
    ensures e.message.Some? ==> r.body["details"] == JsStr(e.message.value)
    ensures r.body.Keys <= {"success", "error", "details"}
  {
    Response(409, WithOptional(map["success" := JsBool(false), "error" := JsStr(message)], "details", e.message))
  }

  /** `{ success: false, error: error.message, code: error.code, details: error.details }` with status 500. */
  function DbErrorResponse(e: DbError): (r: Response)
    ensures r.status == 500 && IsFailure(r)
    ensures ErrorText(r) == e.message
    ensures ("code" in r.body <==> e.code.Some?) && ("details" in r.body <==> e.details.Some?)
    ensures e.code.Some? ==> r.body["code"] == JsStr(e.code.value)
    ensures e.details.Some? ==> r.body["details"] == JsStr(e.details.value)
    ensures r.body.Keys <= {"success", "error", "code", "details"}
  {
    var b := WithOptional(map["success" := JsBool(false)], "error", e.message);
    Response(500, WithOptional(WithOptional(b, "code", e.code), "details", e.details))
  }

  /**
   * What a failed insert turns into when the route knows the unique-constraint
   * case: 409 with the route's own message, then the RLS reply, then the raw error.
   */
  function InsertErrorResponse(duplicateMessage: string, e: DbError): (r: Response)
    ensures r.status == 409 <==> IsDuplicate(e)
    ensures IsDuplicate(e) ==> r == ConflictResponse(duplicateMessage, e)
    ensures !IsDuplicate(e) && IsPermissionDenied(e) ==> r == RlsResponse(e)
    ensures !IsDuplicate(e) && !IsPermissionDenied(e) ==> r == DbErrorResponse(e)
  {
    if IsDuplicate(e) then ConflictResponse(duplicateMessage, e)
    else if IsPermissionDenied(e) then RlsResponse(e)
    else DbErrorResponse(e)
  }

  /** `{ success: false, error: error.message }` with status 500. */
  function MessageOnlyResponse(e: DbError): (r: Response)
    ensures r.status == 500 && IsFailure(r) && ErrorText(r) == e.message
    ensures r.body.Keys <= {"success", "error"}
  {
    Response(500, WithOptional(map["success" := JsBool(false)], "error", e.message))
  }

  /** What a `catch` block receives: an `Error` with its message, or some other thrown value. */
  datatype Thrown = ThrownError(message: string) | ThrownOther

  /** A configuration complaint: the message mentions both "Missing" and "environment variable". */
  predicate IsEnvMessage(m: string) {
    Contains(m, "Missing") && Contains(m, "environment variable")
  }

  /** The `catch` block of the routes that classify what they caught. */
  function ClassifyThrown(t: Thrown): (r: Response)
    ensures r.status == 500 && IsFailure(r)
    ensures t.ThrownOther? ==> r == Failure(500, "Internal server error")
    ensures t.ThrownError? ==> ErrorText(r) == Some(t.message)
    ensures ("hint" in r.body) <==> t.ThrownError? && IsEnvMessage(t.message)
    ensures "hint" in r.body ==> r.body["hint"] == JsStr(EnvHint)
    ensures r.body.Keys <= {"success", "error", "hint"}
  {
    match t
    case ThrownError(m) =>
      if IsEnvMessage(m) then
        Response(500, map["success" := JsBool(false), "error" := JsStr(m), "hint" := JsStr(EnvHint)])
      else
        Failure(500, m)
    case ThrownOther => Failure(500, "Internal server error")
  }

  /** The `catch` block of the routes that do not classify what they caught. */
  function Opaque500(t: Thrown): (r: Response)
    ensures r == Failure(500, "Internal server error")
  {
    Failure(500, "Internal server error")
  }

  /** The server client, or what `getSupabaseServer` throws. */
  datatype Client = Configured | Unconfigured(thrown: Thrown)
}
