/**
 * The embed form page: the state it keeps (the two field lists, the values the
 * user typed, the status line and the generated prompt), the defaults it fills
 * in, the required-field gate of its submit handler, the request it sends, and
 * the widget it draws for each field.
 */
module EmbedForm {
  import opened Wrappers
  import opened Strings
  import opened Entries
  import opened Api

  /** The field types the form knows; `runtime` fields are filled by the host page, never by the user. */
  datatype FieldType = Text | Textarea | Select | Number | Runtime

  datatype FieldRow = FieldRow(
    fieldName: string,
    fieldLabel: string,
    fieldType: FieldType,
    required: bool,
    order: int,
    options: Option<seq<string>>,
    defaultValue: Option<string>)

  /** `if (f.default_value)`: a default that is present and not empty. */
  predicate HasDefault(f: FieldRow) {
    f.defaultValue.Some? && f.defaultValue.value != ""
  }

  // ---------------------------------------------------------------------------
  // Defaults.
  // ---------------------------------------------------------------------------

  /** The defaults record after the `forEach` has visited `fields`. */
  function Defaults(fields: seq<FieldRow>): (d: seq<(string, string)>)
    ensures DistinctKeys(d)
  {
    if |fields| == 0 then []
    else
      var d := Defaults(fields[..|fields| - 1]);
      var f := fields[|fields| - 1];
      if HasDefault(f) then Set(d, f.fieldName, f.defaultValue.value) else d
  }

  /** `[...gFields, ...tFields].forEach(f => { if (f.default_value) defaults[f.field_name] = f.default_value; })`. */
  method ApplyDefaults(fields: seq<FieldRow>) returns (defaults: seq<(string, string)>)
    ensures defaults == Defaults(fields)
  {
    defaults := [];
    for i := 0 to |fields|
      invariant defaults == Defaults(fields[..i])
    {
      assert fields[..i + 1][..i] == fields[..i];
      var f := fields[i];
      if f.defaultValue.Some? && f.defaultValue.value != "" {
        defaults := Set(defaults, f.fieldName, f.defaultValue.value);
      }
    }
    assert fields[..|fields|] == fields;
  }

  /** The last field before the end of `fields` that has that name and a default. */
  predicate LastDefaultAt(fields: seq<FieldRow>, k: string, i: int) {
    0 <= i < |fields| && fields[i].fieldName == k && HasDefault(fields[i])
    && forall j :: i < j < |fields| && fields[j].fieldName == k ==> !HasDefault(fields[j])
  }

  /** No field of that name has a default. */
  predicate NoDefault(fields: seq<FieldRow>, k: string) {
    forall i :: 0 <= i < |fields| && fields[i].fieldName == k ==> !HasDefault(fields[i])
  }

  /** Adding one more field to the scan: where the last default for `k` now is. */
  lemma DefaultsStep(fields: seq<FieldRow>, k: string)
    requires |fields| > 0
    ensures var front, f := fields[..|fields| - 1], fields[|fields| - 1];
            Lookup(Defaults(fields), k) ==
              if HasDefault(f) && f.fieldName == k then Some(f.defaultValue.value) else Lookup(Defaults(front), k)
  {
  }

  lemma LastDefaultExtend(fields: seq<FieldRow>, k: string, i: int)
    requires |fields| > 0
    requires LastDefaultAt(fields[..|fields| - 1], k, i)
    requires !(HasDefault(fields[|fields| - 1]) && fields[|fields| - 1].fieldName == k)
    ensures LastDefaultAt(fields, k, i)
  {
    var front := fields[..|fields| - 1];
    forall j | i < j < |fields| && fields[j].fieldName == k
      ensures !HasDefault(fields[j])
    {
      if j < |front| {
        assert fields[j] == front[j];
      }
    }
  }

  lemma NoDefaultExtend(fields: seq<FieldRow>, k: string)
    requires |fields| > 0
    requires NoDefault(fields[..|fields| - 1], k)
    requires !(HasDefault(fields[|fields| - 1]) && fields[|fields| - 1].fieldName == k)
    ensures NoDefault(fields, k)
  {
    var front := fields[..|fields| - 1];
    forall i | 0 <= i < |fields| && fields[i].fieldName == k
      ensures !HasDefault(fields[i])
    {
      if i < |front| {
        assert fields[i] == front[i];
      }
    }
  }

  /**
   * A name gets the default of the last field with that name that has one, and
   * no default when no field of that name has one.
   */
  lemma {:induction false} DefaultsLookup(fields: seq<FieldRow>, k: string)
    ensures Lookup(Defaults(fields), k).None? <==> NoDefault(fields, k)
    ensures Lookup(Defaults(fields), k).Some? ==>
              exists i :: LastDefaultAt(fields, k, i) && fields[i].defaultValue.value == Lookup(Defaults(fields), k).value
  {
    if |fields| > 0 {
      var front := fields[..|fields| - 1];
      var f := fields[|fields| - 1];
      DefaultsLookup(front, k);
      DefaultsStep(fields, k);
      var r := Lookup(Defaults(fields), k);
      if HasDefault(f) && f.fieldName == k {
        assert LastDefaultAt(fields, k, |fields| - 1);
      } else if r.Some? {
        var i :| LastDefaultAt(front, k, i) && front[i].defaultValue.value == r.value;
        LastDefaultExtend(fields, k, i);
      } else {
        NoDefaultExtend(fields, k);
      }
    }
  }

  // ---------------------------------------------------------------------------
  // Visible fields and the required-field gate.
  // ---------------------------------------------------------------------------

  /** `fields.filter(f => f.field_type !== "runtime")`. */
  function Visible(fields: seq<FieldRow>): (r: seq<FieldRow>)
    ensures |r| <= |fields|
  {
    if |fields| == 0 then []
    else (if fields[0].fieldType == Runtime then [] else [fields[0]]) + Visible(fields[1..])
  }

  /** The visible fields are exactly the fields that are not `runtime`. */
  lemma {:induction false} VisibleMembers(fields: seq<FieldRow>, f: FieldRow)
    ensures f in Visible(fields) <==> f in fields && f.fieldType != Runtime
  {
    if |fields| > 0 {
      VisibleMembers(fields[1..], f);
      assert fields == [fields[0]] + fields[1..];
    }
  }

  lemma {:induction false} VisibleAppend(a: seq<FieldRow>, b: seq<FieldRow>)
    ensures Visible(a + b) == Visible(a) + Visible(b)
    decreases |a|
  {
    if |a| == 0 {
      assert a + b == b;
    } else {
      var ab := a + b;
      assert ab[0] == a[0];
      assert ab[1..] == a[1..] + b;
      VisibleAppend(a[1..], b);
      VisibleCons(ab);
      VisibleCons(a);
    }
  }

  lemma VisibleCons(fields: seq<FieldRow>)
    requires |fields| > 0
    ensures Visible(fields) == (if fields[0].fieldType == Runtime then [] else [fields[0]]) + Visible(fields[1..])
  {
  }

  /** `!val || val.trim() === ""` for `val = values[name]`. */
  predicate Blank(v: Option<string>) {
    v.None? || AllSpace(v.value)
  }

  /** The check fails on this field: it is required and its value is missing or blank. */
  predicate Blocks(f: FieldRow, values: seq<(string, string)>) {
    f.required && Blank(Lookup(values, f.fieldName))
  }

  /** Some visible field, in the gate's walk over `fields`, stops the submit. */
  predicate GateStops(fields: seq<FieldRow>, values: seq<(string, string)>) {
    exists i :: 0 <= i < |Visible(fields)| && Blocks(Visible(fields)[i], values)
  }

  /** The `for` loop of `handleSubmit`: the first field, in order, that stops the submit. */
  method FirstMissing(fields: seq<FieldRow>, values: seq<(string, string)>) returns (missing: Option<nat>)
    ensures missing.None? <==> forall i :: 0 <= i < |fields| ==> !Blocks(fields[i], values)
    ensures missing.Some? ==> missing.value < |fields| && Blocks(fields[missing.value], values)
    ensures missing.Some? ==> forall j :: 0 <= j < missing.value ==> !Blocks(fields[j], values)
  {
    for i := 0 to |fields|
      invariant forall j :: 0 <= j < i ==> !Blocks(fields[j], values)
    {
      var field := fields[i];
      if field.required {
        var val := Lookup(values, field.fieldName);
        if val.None? || Trim(val.value) == "" {
          return Some(i);
        }
      }
    }
    return None;
  }

  // ---------------------------------------------------------------------------
  // The generate request and the reply.
  // ---------------------------------------------------------------------------

  /** The body `handleSubmit` and the formless branch post to the generate route. */
  datatype GenerateRequest = GenerateRequest(
    appId: string,
    taskName: string,
    fieldValues: seq<(string, string)>,
    fixedContent: Option<string>)

  /** The parts of the generate route's reply the form reads. */
  datatype Reply = Reply(success: bool, prompt: string, error: Option<string>)

  /** `fixedContent || null`. */
  function FixedOrNull(fixed: Option<string>): (r: Option<string>)
    ensures r.None? <==> !Given(fixed)
    ensures r.Some? ==> r == fixed
  {
    if Given(fixed) then fixed else None
  }

  /** `tDetail?.task?.has_form ?? true`, with `None` for a missing or null flag. */
  function TaskHasForm(hasForm: Option<bool>): (b: bool)
    ensures hasForm.None? ==> b
    ensures hasForm.Some? ==> b == hasForm.value
  {
    if hasForm.Some? then hasForm.value else true
  }

  const MissingParamsStatus := "❌ Missing app_id or task_name"
  const SubmittedStatus := "✅ Prompt generated! Copy it below."
  const FormlessStatus := "✅ Prompt generated (formless task)"

  function RequiredStatus(fieldLabel: string): string {
    "❌ Required field missing: " + fieldLabel
  }

  /** `❌ ${data.error || "Unknown error"}`. */
  function FailureStatus(error: Option<string>): (s: string)
    ensures Given(error) ==> s == "❌ " + error.value
    ensures !Given(error) ==> s == "❌ Unknown error"
  {
    "❌ " + (if Given(error) then error.value else "Unknown error")
  }

  // ---------------------------------------------------------------------------
  // Rendering.
  // ---------------------------------------------------------------------------

  /** The control drawn for a field, with the value it shows. */
  datatype Control =
    | TextareaControl(value: string)
    | SelectControl(value: string, choices: seq<string>)
    | NumberControl(value: string)
    | TextControl(value: string)

  datatype Widget = Widget(caption: string, requiredMark: bool, control: Control)

  /** `values[field.field_name] || ""`. */
  function ShownValue(values: seq<(string, string)>, name: string): (v: string)
    ensures Lookup(values, name).Some? ==> v == Lookup(values, name).value
    ensures Lookup(values, name).None? ==> v == ""
  {
    match Lookup(values, name)
    case Some(v) => v
    case None => ""
  }

  /** `renderField`: the control follows the field type; a select offers `options || []`. */
  function RenderField(f: FieldRow, values: seq<(string, string)>): (w: Widget)
    ensures w.caption == f.fieldLabel && w.requiredMark == f.required
    ensures w.control.value == ShownValue(values, f.fieldName)
    ensures w.control.TextareaControl? <==> f.fieldType == Textarea
    ensures w.control.SelectControl? <==> f.fieldType == Select
    ensures w.control.NumberControl? <==> f.fieldType == Number
    ensures w.control.SelectControl? ==> w.control.choices == (if f.options.Some? then f.options.value else [])
  {
    var val := ShownValue(values, f.fieldName);
    var control :=
      if f.fieldType == Textarea then TextareaControl(val)
      else if f.fieldType == Select then SelectControl(val, if f.options.Some? then f.options.value else [])
      else if f.fieldType == Number then NumberControl(val)
      else TextControl(val);
    Widget(f.fieldLabel, f.required, control)
  }

  /** `fields.filter(f => f.field_type !== "runtime").map(renderField)`. */
  function RenderList(fields: seq<FieldRow>, values: seq<(string, string)>): (ws: seq<Widget>)
    ensures |ws| == |Visible(fields)|
    ensures forall i :: 0 <= i < |ws| ==> ws[i] == RenderField(Visible(fields)[i], values)
  {
    var vis := Visible(fields);
    seq(|vis|, i requires 0 <= i < |vis| => RenderField(vis[i], values))
  }

  /** The page's form: every widget is drawn for a field that is not `runtime`, and each such field gets one. */
  lemma RenderedAreVisible(fields: seq<FieldRow>, values: seq<(string, string)>, i: int)
    requires 0 <= i < |RenderList(fields, values)|
    ensures Visible(fields)[i] in fields && Visible(fields)[i].fieldType != Runtime
  {
    VisibleMembers(fields, Visible(fields)[i]);
  }

  // ---------------------------------------------------------------------------
  // The page state.
  // ---------------------------------------------------------------------------

  /** The page's `useState` slots, with the URL parameters it was opened with. */
  class FormPage {
    const appIdParam: Option<string>
    const taskNameParam: Option<string>
    const fixedParam: Option<string>
    var globalFields: seq<FieldRow>
    var taskFields: seq<FieldRow>
    var values: seq<(string, string)>
    var status: string
    var generatedPrompt: string

    /** `values` is a record: one entry per key. */
    predicate Valid()
      reads this
    {
      DistinctKeys(values)
    }

    constructor(appId: Option<string>, taskName: Option<string>, fixed: Option<string>)
      ensures Valid()
      ensures appIdParam == appId && taskNameParam == taskName && fixedParam == fixed
      ensures globalFields == [] && taskFields == [] && values == []
      ensures status == "" && generatedPrompt == ""
    {
      appIdParam, taskNameParam, fixedParam := appId, taskName, fixed;
      globalFields, taskFields, values := [], [], [];
      status, generatedPrompt := "", "";
    }

    /** The request the formless branch posts: no field values, and the fixed content or null. */
    function FormlessRequest(): (r: GenerateRequest)
      requires Given(appIdParam) && Given(taskNameParam)
      reads this
      ensures r.fieldValues == [] && r.fixedContent == FixedOrNull(fixedParam)
      ensures r.appId == appIdParam.value && r.taskName == taskNameParam.value
    {
      GenerateRequest(appIdParam.value, taskNameParam.value, [], FixedOrNull(fixedParam))
    }

    /** The field lists arrived: store them and fill `values` with their defaults. */
    method ShowFields(g: seq<FieldRow>, t: seq<FieldRow>)
      modifies this
      ensures Valid()
      ensures globalFields == g && taskFields == t && values == Defaults(g + t)
      ensures status == old(status) && generatedPrompt == old(generatedPrompt)
    {
      globalFields, taskFields := g, t;
      values := ApplyDefaults(g + t);
    }

    /** A formless task: the reply to `FormlessRequest()` is shown and no field is. */
    method ShowFormless(reply: Reply)
      requires Valid()
      modifies this
      ensures Valid()
      ensures globalFields == [] && taskFields == [] && values == old(values)
      ensures reply.success ==> generatedPrompt == reply.prompt && status == FormlessStatus
      ensures !reply.success ==> generatedPrompt == old(generatedPrompt) && status == FailureStatus(reply.error)
    {
      if reply.success {
        generatedPrompt := reply.prompt;
        status := FormlessStatus;
      } else {
        status := FailureStatus(reply.error);
      }
      globalFields, taskFields := [], [];
    }

    /** An `onChange`: `setValues({ ...values, [name]: v })`. */
    method Edit(name: string, v: string)
      requires Valid()
      modifies this
      ensures Valid()
      ensures values == Set(old(values), name, v)
      ensures Lookup(values, name) == Some(v)
      ensures forall k :: k != name ==> Lookup(values, k) == Lookup(old(values), k)
      ensures globalFields == old(globalFields) && taskFields == old(taskFields)
      ensures status == old(status) && generatedPrompt == old(generatedPrompt)
    {
      values := Set(values, name, v);
    }

    /**
     * `handleSubmit` up to the request: the request to post, or `None` with the
     * status line saying why nothing was sent.
     */
    method Submit() returns (request: Option<GenerateRequest>)
      requires Valid()
      modifies this
      ensures Valid()
      ensures values == old(values) && globalFields == old(globalFields) && taskFields == old(taskFields)
      ensures generatedPrompt == ""
      ensures !(Given(appIdParam) && Given(taskNameParam)) ==> request.None? && status == MissingParamsStatus
      ensures Given(appIdParam) && Given(taskNameParam) ==>
                var visible := Visible(globalFields + taskFields);
                && (request.None? <==> GateStops(globalFields + taskFields, values))
                && (request.None? ==>
                      (exists i :: 0 <= i < |visible| && Blocks(visible[i], values)
                         && (forall j :: 0 <= j < i ==> !Blocks(visible[j], values))
                         && status == RequiredStatus(visible[i].fieldLabel)))
                && (request.Some? ==>
                      (status == ""
                       && request.value == GenerateRequest(appIdParam.value, taskNameParam.value, values, FixedOrNull(fixedParam))))
    {
      status := "";
      generatedPrompt := "";
      if !Given(appIdParam) || !Given(taskNameParam) {
        status := MissingParamsStatus;
        return None;
      }
      var allFields := Visible(globalFields + taskFields);
      var missing := FirstMissing(allFields, values);
      if missing.Some? {
        status := RequiredStatus(allFields[missing.value].fieldLabel);
        assert allFields == Visible(globalFields + taskFields);
        return None;
      }
      return Some(GenerateRequest(appIdParam.value, taskNameParam.value, values, FixedOrNull(fixedParam)));
    }

    /** The reply to a submitted request. */
    method ShowReply(reply: Reply)
      requires Valid()
      modifies this
      ensures Valid()
      ensures values == old(values) && globalFields == old(globalFields) && taskFields == old(taskFields)
      ensures reply.success ==> generatedPrompt == reply.prompt && status == SubmittedStatus
      ensures !reply.success ==> generatedPrompt == old(generatedPrompt) && status == FailureStatus(reply.error)
    {
      if !reply.success {
        status := FailureStatus(reply.error);
        return;
      }
      generatedPrompt := reply.prompt;
      status := SubmittedStatus;
    }
  }

  /**
   * A `runtime` field never stops a submit, whatever its `required` flag and
   * value: adding one anywhere among the fields leaves the gate's verdict as
   * it was.
   */
  lemma RuntimeNeverBlocks(before: seq<FieldRow>, f: FieldRow, after: seq<FieldRow>, values: seq<(string, string)>)
    requires f.fieldType == Runtime
    ensures GateStops(before + [f] + after, values) <==> GateStops(before + after, values)
  {
    VisibleAppend(before + [f], after);
    VisibleAppend(before, [f]);
    VisibleAppend(before, after);
    VisibleCons([f]);
    assert Visible([f]) == [];
    assert Visible(before + [f] + after) == Visible(before + after);
  }

  /** Every field the gate checks is a global or a task field that is not `runtime`. */
  lemma GateChecksNoRuntime(g: seq<FieldRow>, t: seq<FieldRow>, i: int)
    requires 0 <= i < |Visible(g + t)|
    ensures Visible(g + t)[i].fieldType != Runtime
    ensures Visible(g + t)[i] in g || Visible(g + t)[i] in t
  {
    VisibleMembers(g + t, Visible(g + t)[i]);
  }

  /** The gate walks the global fields before the task fields. */
  lemma GateOrder(g: seq<FieldRow>, t: seq<FieldRow>)
    ensures Visible(g + t) == Visible(g) + Visible(t)
  {
    VisibleAppend(g, t);
  }
}
