/**
 * The builder's variable tracker: the list of tokens a template can use (the
 * fixed-content marker, then one placeholder per field) and, for each, whether
 * the template already contains it.
 */
module VariableTracker {
  import opened Strings
  import TemplateCheck

  /** The part of a field row the tracker reads. */
  datatype TrackedField = TrackedField(id: string, fieldName: string, fieldLabel: string)

  const FixedMarker := "<<fixed>>"

  /** `{{name}}`. */
  function Token(name: string): string {
    "{{" + name + "}}"
  }

  /** `vars`: the marker first, then one token per field in field order, duplicates kept. */
  function Vars(fields: seq<TrackedField>): (vars: seq<string>)
    ensures |vars| == |fields| + 1 && vars[0] == FixedMarker
    ensures forall i :: 0 <= i < |fields| ==> vars[i + 1] == Token(fields[i].fieldName)
    decreases |fields|
  {
    if |fields| == 0 then [FixedMarker]
    else Vars(fields[..|fields| - 1]) + [Token(fields[|fields| - 1].fieldName)]
  }

  /** Every token listed is the marker or the token of some field, and every field's token is listed. */
  lemma VarsMembers(fields: seq<TrackedField>, v: string)
    ensures v in Vars(fields) <==> v == FixedMarker || exists i :: 0 <= i < |fields| && v == Token(fields[i].fieldName)
  {
    var vars := Vars(fields);
    if v in vars {
      var k :| 0 <= k < |vars| && vars[k] == v;
      if k > 0 {
        assert v == Token(fields[k - 1].fieldName);
      }
    }
    if exists i :: 0 <= i < |fields| && v == Token(fields[i].fieldName) {
      var i :| 0 <= i < |fields| && v == Token(fields[i].fieldName);
      assert vars[i + 1] == v;
    }
  }

  /** `template.includes(v)`: the check mark is shown exactly when `v` occurs somewhere in the template. */
  function Marked(template: string, v: string): (shown: bool)
    ensures shown <==> exists p :: OccursAt(template, v, p)
  {
    ContainsIff(template, v);
    Contains(template, v)
  }

  /** What the tracker lists: each token with its check mark. */
  function Tracked(template: string, fields: seq<TrackedField>): (rows: seq<(string, bool)>)
    ensures |rows| == |fields| + 1
    ensures forall k :: 0 <= k < |rows| ==> rows[k].0 == Vars(fields)[k] && (rows[k].1 <==> Marked(template, rows[k].0))
  {
    var vars := Vars(fields);
    seq(|vars|, k requires 0 <= k < |vars| => (vars[k], Marked(template, vars[k])))
  }

  /**
   * For a field whose name is a word, the tracker's check mark agrees with the
   * template lint: it is shown exactly when the lint finds the name among the
   * template's placeholders.
   */
  lemma MarkAgreesWithLint(template: string, fields: seq<TrackedField>, i: int)
    requires 0 <= i < |fields| && TemplateCheck.IsWord(fields[i].fieldName)
    ensures Tracked(template, fields)[i + 1].1 <==> fields[i].fieldName in TemplateCheck.TemplateNames(template)
  {
    var name := fields[i].fieldName;
    TemplateCheck.TemplateNamesIff(template, name);
    assert Tracked(template, fields)[i + 1].0 == Token(name);
    if Tracked(template, fields)[i + 1].1 {
      var p :| OccursAt(template, Token(name), p);
      assert TemplateCheck.PlaceholderAt(template, p, name);
    }
    if name in TemplateCheck.TemplateNames(template) {
      var p :| TemplateCheck.PlaceholderAt(template, p, name);
      assert OccursAt(template, Token(name), p);
    }
  }
}
