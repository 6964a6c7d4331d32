/**
 * `validateTemplate` of the builder page: the lint that lists the placeholders
 * of a template that name no field.
 */
module TemplateCheck {
  import opened Wrappers
  import opened Strings

  /** JavaScript's `\w`. */
  predicate WordChar(c: char) {
    'a' <= c <= 'z' || 'A' <= c <= 'Z' || '0' <= c <= '9' || c == '_'
  }

  /** A name `\w+` can match. */
  predicate IsWord(v: string) {
    |v| > 0 && forall i :: 0 <= i < |v| ==> WordChar(v[i])
  }

  /** `{{v}}` with a word `v` starts at index `p` of `t`. */
  predicate PlaceholderAt(t: string, p: int, v: string) {
    IsWord(v) && OccursAt(t, "{{" + v + "}}", p)
  }

  /** The end of the run of word characters of `t` that starts at `from`. */
  function WordEnd(t: string, from: nat): (e: nat)
    requires from <= |t|
    ensures from <= e <= |t|
    ensures forall i :: from <= i < e ==> WordChar(t[i])
    ensures e < |t| ==> !WordChar(t[e])
    decreases |t| - from
  {
    if from < |t| && WordChar(t[from]) then WordEnd(t, from + 1) else from
  }

  /**
   * `/\{\{(\w+)\}\}/` tried at index `p`: the index where the captured name ends.
   * The greedy `\w+` can only stop at the first character that is not a word
   * character, so there is at most one match.
   */
  function NameMatch(t: string, p: nat): (m: Option<nat>)
    requires p <= |t|
    ensures m.Some? ==> p + 2 < m.value && m.value + 2 <= |t|
    ensures m.Some? ==> t[p] == '{' && t[p + 1] == '{' && t[m.value] == '}' && t[m.value + 1] == '}'
    ensures m.Some? ==> forall i :: p + 2 <= i < m.value ==> WordChar(t[i])
  {
    if p + 2 <= |t| && t[p] == '{' && t[p + 1] == '{' then
      var e := WordEnd(t, p + 2);
      if e > p + 2 && e + 2 <= |t| && t[e] == '}' && t[e + 1] == '}' then Some(e) else None
    else
      None
  }

  /** `[...t.matchAll(/\{\{(\w+)\}\}/g)].map(m => m[1])`, searching from index `p`. */
  function NamesFrom(t: string, p: nat): seq<string>
    requires p <= |t|
    decreases |t| - p
  {
    if p == |t| then []
    else match NameMatch(t, p)
      case Some(e) => [t[p + 2..e]] + NamesFrom(t, e + 2)
      case None => NamesFrom(t, p + 1)
  }

  function TemplateNames(t: string): seq<string> {
    NamesFrom(t, 0)
  }

  /** The index facts behind an occurrence of `{{v}}`. */
  lemma PlaceholderChars(t: string, p: int, v: string)
    requires PlaceholderAt(t, p, v)
    ensures 0 <= p && p + |v| + 4 <= |t|
    ensures t[p] == '{' && t[p + 1] == '{' && t[p + |v| + 2] == '}' && t[p + |v| + 3] == '}'
    ensures forall k :: 0 <= k < |v| ==> t[p + 2 + k] == v[k]
    ensures t[p + 2..p + 2 + |v|] == v
  {
    var pat := "{{" + v + "}}";
    assert t[p..p + |pat|] == pat;
    forall k | 0 <= k < |v|
      ensures t[p + 2 + k] == v[k]
    {
      assert t[p..p + |pat|][2 + k] == pat[2 + k];
    }
    assert t[p..p + |pat|][|v| + 2] == '}' && t[p..p + |pat|][|v| + 3] == '}';
    assert t[p..p + |pat|][0] == '{' && t[p..p + |pat|][1] == '{';
  }

  /** Every name found is a word that appears as `{{name}}` at or after `p`. */
  lemma {:induction false} NamesFromSound(t: string, p: nat, v: string)
    requires p <= |t|
    requires v in NamesFrom(t, p)
    ensures exists q :: p <= q && PlaceholderAt(t, q, v)
    decreases |t| - p
  {
    if p < |t| {
      match NameMatch(t, p)
      case Some(e) =>
        if v == t[p + 2..e] {
          MatchIsPlaceholder(t, p, e);
        } else {
          NamesFromSound(t, e + 2, v);
        }
      case None =>
        NamesFromSound(t, p + 1, v);
    }
  }

  /** Every `{{name}}` at or after `p` is found: no earlier match can overlap it. */
  lemma NamesFromComplete(t: string, p: nat, i: int, v: string)
    requires p <= i && PlaceholderAt(t, i, v)
    ensures p <= |t| && v in NamesFrom(t, p)
  {
    NameMatchAtPlaceholder(t, i, v);
    PlaceholderChars(t, i, v);
    NamesFromReaches(t, p, i, i + 2 + |v|);
  }

  /** A match at `i` is reached by the scan from any `p <= i`. */
  lemma {:induction false} NamesFromReaches(t: string, p: nat, i: nat, e: nat)
    requires p <= i < |t| && NameMatch(t, i) == Some(e)
    ensures t[i + 2..e] in NamesFrom(t, p)
    decreases |t| - p
  {
    var m := NameMatch(t, p);
    if p == i {
      NamesFromMatched(t, p, e, t[i + 2..e]);
    } else if m.Some? {
      MatchesApart(t, p, m.value, i);
      NamesFromReaches(t, m.value + 2, i, e);
      NamesFromMatched(t, p, m.value, t[i + 2..e]);
    } else {
      NamesFromReaches(t, p + 1, i, e);
      NamesFromUnmatched(t, p, t[i + 2..e]);
    }
  }

  /** The scan records a match, then finds what it finds after it. */
  lemma NamesFromMatched(t: string, p: nat, e: nat, v: string)
    requires p < |t| && NameMatch(t, p) == Some(e)
    requires v == t[p + 2..e] || v in NamesFrom(t, e + 2)
    ensures v in NamesFrom(t, p)
  {
    assert NamesFrom(t, p) == [t[p + 2..e]] + NamesFrom(t, e + 2);
  }

  /** The scan moves one character on where nothing matches. */
  lemma NamesFromUnmatched(t: string, p: nat, v: string)
    requires p < |t| && NameMatch(t, p).None?
    requires v in NamesFrom(t, p + 1)
    ensures v in NamesFrom(t, p)
  {
  }

  /** A match that starts before another match ends before it starts. */
  lemma MatchesApart(t: string, p: nat, e: nat, i: nat)
    requires p < i <= |t| && NameMatch(t, p) == Some(e) && NameMatch(t, i).Some?
    ensures e + 2 <= i
  {
    assert t[i] == '{' && !WordChar('{');
  }

  /** The pattern tried where `{{v}}` starts captures exactly `v`. */
  lemma NameMatchAtPlaceholder(t: string, i: int, v: string)
    requires PlaceholderAt(t, i, v)
    ensures 0 <= i && i + |v| + 4 <= |t| && NameMatch(t, i) == Some(i + 2 + |v|)
  {
    PlaceholderChars(t, i, v);
    var e := WordEnd(t, i + 2);
    assert e == i + 2 + |v| by {
      assert !WordChar(t[i + 2 + |v|]);
    }
  }

  /** What the pattern matches at `p` is a placeholder there. */
  lemma MatchIsPlaceholder(t: string, p: nat, e: nat)
    requires p <= |t| && NameMatch(t, p) == Some(e)
    ensures PlaceholderAt(t, p, t[p + 2..e])
  {
    var pat := "{{" + t[p + 2..e] + "}}";
    assert t[p..p + |pat|] == pat;
  }

  /** The indices where the scan from `p` finds a match, in the order it finds them. */
  function MatchStarts(t: string, p: nat): seq<nat>
    requires p <= |t|
    decreases |t| - p
  {
    if p == |t| then []
    else match NameMatch(t, p)
      case Some(e) => [p] + MatchStarts(t, e + 2)
      case None => MatchStarts(t, p + 1)
  }

  /** The scan from `p` finds one name per start. */
  lemma {:induction false} NamesPerStart(t: string, p: nat)
    requires p <= |t|
    ensures |NamesFrom(t, p)| == |MatchStarts(t, p)|
    decreases |t| - p
  {
    if p < |t| {
      match NameMatch(t, p)
      case Some(e) =>
        NamesPerStart(t, e + 2);
      case None =>
        NamesPerStart(t, p + 1);
    }
  }

  /** The `k`-th name of the scan from `p` is the placeholder at its `k`-th start. */
  lemma {:induction false} NameAtStart(t: string, p: nat, k: nat)
    requires p <= |t| && k < |MatchStarts(t, p)| && k < |NamesFrom(t, p)|
    ensures PlaceholderAt(t, MatchStarts(t, p)[k], NamesFrom(t, p)[k])
    decreases |t| - p
  {
    var m := NameMatch(t, p);
    if m.None? {
      ScanSkips(t, p);
      NameAtStart(t, p + 1, k);
    } else {
      var e := m.value;
      ScanRecords(t, p, e);
      if k > 0 {
        NameAtStart(t, e + 2, k - 1);
      } else {
        MatchIsPlaceholder(t, p, e);
      }
    }
  }

  /** Where the pattern matches, the scan records the start and the name and goes on after the match. */
  lemma ScanRecords(t: string, p: nat, e: nat)
    requires p < |t| && NameMatch(t, p) == Some(e)
    ensures MatchStarts(t, p) == [p] + MatchStarts(t, e + 2)
    ensures NamesFrom(t, p) == [t[p + 2..e]] + NamesFrom(t, e + 2)
  {
  }

  /** Where the pattern does not match, the scan goes on at the next character. */
  lemma ScanSkips(t: string, p: nat)
    requires p < |t| && NameMatch(t, p).None?
    ensures MatchStarts(t, p) == MatchStarts(t, p + 1)
    ensures NamesFrom(t, p) == NamesFrom(t, p + 1)
  {
  }

  /** The starts increase. */
  lemma {:induction false} StartsIncrease(t: string, p: nat)
    requires p <= |t|
    ensures forall k :: 0 <= k < |MatchStarts(t, p)| ==> p <= MatchStarts(t, p)[k]
    ensures forall j, k :: 0 <= j < k < |MatchStarts(t, p)| ==> MatchStarts(t, p)[j] < MatchStarts(t, p)[k]
    decreases |t| - p
  {
    if p < |t| {
      match NameMatch(t, p)
      case Some(e) =>
        StartsIncrease(t, e + 2);
        assert MatchStarts(t, p) == [p] + MatchStarts(t, e + 2);
      case None =>
        StartsIncrease(t, p + 1);
    }
  }

  /** A match at `i` is one of the starts of the scan from any `p <= i`. */
  lemma {:induction false} StartsReach(t: string, p: nat, i: nat)
    requires p <= i < |t| && NameMatch(t, i).Some?
    ensures i in MatchStarts(t, p)
    decreases |t| - p
  {
    var m := NameMatch(t, p);
    if p == i {
      assert MatchStarts(t, p) == [p] + MatchStarts(t, m.value + 2);
    } else if m.Some? {
      MatchesApart(t, p, m.value, i);
      StartsReach(t, m.value + 2, i);
      assert MatchStarts(t, p) == [p] + MatchStarts(t, m.value + 2);
    } else {
      StartsReach(t, p + 1, i);
    }
  }

  /**
   * `matchAll` lists one name per `{{name}}` occurrence, in the order the
   * occurrences start: the `k`-th name is the placeholder at the `k`-th
   * start, the starts increase, and every occurrence is among them.
   */
  lemma TemplateNamesInOrder(t: string)
    ensures var starts, names := MatchStarts(t, 0), TemplateNames(t);
            && |names| == |starts|
            && (forall k :: 0 <= k < |starts| ==> PlaceholderAt(t, starts[k], names[k]))
            && (forall j, k :: 0 <= j < k < |starts| ==> starts[j] < starts[k])
            && (forall q, v :: PlaceholderAt(t, q, v) ==> q in starts)
  {
    var starts, names := MatchStarts(t, 0), TemplateNames(t);
    NamesPerStart(t, 0);
    StartsIncrease(t, 0);
    forall k | 0 <= k < |starts|
      ensures PlaceholderAt(t, starts[k], names[k])
    {
      NameAtStart(t, 0, k);
    }
    forall q, v | PlaceholderAt(t, q, v)
      ensures q in starts
    {
      NameMatchAtPlaceholder(t, q, v);
      StartsReach(t, 0, q);
    }
  }

  /** The names found are exactly the words that appear between double braces. */
  lemma TemplateNamesIff(t: string, v: string)
    ensures v in TemplateNames(t) <==> exists p :: PlaceholderAt(t, p, v)
  {
    if v in TemplateNames(t) {
      NamesFromSound(t, 0, v);
    }
    if exists p :: PlaceholderAt(t, p, v) {
      var p :| PlaceholderAt(t, p, v);
      PlaceholderChars(t, p, v);
      NamesFromComplete(t, 0, p, v);
    }
  }

  /** A name that needs no field: it is defined, or it is the reserved `system_header`. */
  predicate Known(v: string, fieldNames: seq<string>) {
    v in fieldNames || v == "system_header"
  }

  /** `templateVars.filter(v => !fieldNames.includes(v) && v !== "system_header")`. */
  function MissingNames(vars: seq<string>, fieldNames: seq<string>): (missing: seq<string>)
    ensures |missing| <= |vars|
    ensures forall v :: multiset(missing)[v] == if Known(v, fieldNames) then 0 else multiset(vars)[v]
    ensures |vars| == 1 ==> missing == if Known(vars[0], fieldNames) then [] else vars
    decreases |vars|
  {
    if |vars| == 0 then []
    else
      var rest := MissingNames(vars[1..], fieldNames);
      assert vars == [vars[0]] + vars[1..];
      if Known(vars[0], fieldNames) then rest else [vars[0]] + rest
  }

  /**
   * The filter keeps order: what it keeps of `a + b` is what it keeps of `a`
   * followed by what it keeps of `b`. With the one-name case of
   * `MissingNames` this makes it the order-keeping filter of the unknown names.
   */
  lemma {:induction false} MissingNamesAppend(a: seq<string>, b: seq<string>, fieldNames: seq<string>)
    ensures MissingNames(a + b, fieldNames) == MissingNames(a, fieldNames) + MissingNames(b, fieldNames)
    decreases |a|
  {
    if |a| == 0 {
      assert a + b == b;
    } else {
      assert (a + b)[0] == a[0] && (a + b)[1..] == a[1..] + b;
      MissingNamesAppend(a[1..], b, fieldNames);
    }
  }

  const UndefinedPrefix := "⚠️ Template uses undefined variables: "
  const UndefinedSuffix := ". Add these as fields or remove them from the template."

  /** The lint's verdict: a warning naming the undefined variables, in template order, or none. */
  function ValidateTemplate(t: string, fieldNames: seq<string>): (warning: Option<string>)
    ensures warning.None? <==> |MissingNames(TemplateNames(t), fieldNames)| == 0
    ensures warning.Some? ==>
              warning.value == UndefinedPrefix + Join(MissingNames(TemplateNames(t), fieldNames), ", ") + UndefinedSuffix
  {
    var missing := MissingNames(TemplateNames(t), fieldNames);
    if |missing| > 0 then Some(UndefinedPrefix + Join(missing, ", ") + UndefinedSuffix) else None
  }

  /** `validateTemplate` returns null exactly when every `{{word}}` in the template is a field name or `system_header`. */
  lemma ValidateTemplateNone(t: string, fieldNames: seq<string>)
    ensures ValidateTemplate(t, fieldNames).None? <==>
            forall p, v :: PlaceholderAt(t, p, v) ==> Known(v, fieldNames)
  {
    var vars := TemplateNames(t);
    var missing := MissingNames(vars, fieldNames);
    if |missing| == 0 {
      forall p, v | PlaceholderAt(t, p, v)
        ensures Known(v, fieldNames)
      {
        TemplateNamesIff(t, v);
        assert multiset(missing)[v] == 0;
        assert v in multiset(vars);
      }
    } else {
      var v := missing[0];
      assert multiset(missing)[v] > 0;
      assert !Known(v, fieldNames) && v in multiset(vars);
      TemplateNamesIff(t, v);
    }
  }

  /**
   * When no placeholder of the template is known, the warning lists every
   * occurrence: the missing list is the whole list of names, one per
   * occurrence, so a name used twice is listed twice.
   */
  lemma MissingKeepsDuplicates(t: string, fieldNames: seq<string>)
    requires forall p, v :: PlaceholderAt(t, p, v) ==> !Known(v, fieldNames)
    ensures MissingNames(TemplateNames(t), fieldNames) == TemplateNames(t)
  {
    var vars := TemplateNames(t);
    forall v | v in vars
      ensures !Known(v, fieldNames)
    {
      TemplateNamesIff(t, v);
    }
    NoneKnown(vars, fieldNames);
  }

  /** A list with no known name passes the filter whole. */
  lemma {:induction false} NoneKnown(vars: seq<string>, fieldNames: seq<string>)
    requires forall v :: v in vars ==> !Known(v, fieldNames)
    ensures MissingNames(vars, fieldNames) == vars
    decreases |vars|
  {
    if |vars| > 0 {
      NoneKnown(vars[1..], fieldNames);
      assert vars == [vars[0]] + vars[1..];
    }
  }
}
