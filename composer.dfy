/**
 * The prompt composition engine of `POST /api/generate-prompt`: header choice,
 * the `<<fixed>>` pass, the layered merge of value maps, the substitution loop,
 * the three regular-expression cleanup passes and the final line normaliser.
 *
 * Each regular-expression pass is written as the left-to-right scanner the
 * JavaScript engine runs for a global `replace`: at each position it tries the
 * pattern on the rest of the text; on a match it emits the replacement and
 * resumes after the match, otherwise it keeps one character and moves on.
 */
module Composer {
  import opened Wrappers
  import opened Strings
  import opened Entries

  const FixedMarker := "<<fixed>>"

  // ---------------------------------------------------------------------------
  // Steps 1-2: header choice and the working text

  /** `x?.trim()` read as a condition: an absent or blank header counts as none. */
  predicate HasText(h: Option<string>) {
    h.Some? && Trim(h.value) != ""
  }

  /** The task's own header wins; otherwise the app's; otherwise no header. */
  function SelectHeader(taskHeader: Option<string>, appHeader: Option<string>): (h: Option<string>)
    ensures HasText(taskHeader) ==> h == Some(Trim(taskHeader.value))
    ensures !HasText(taskHeader) && HasText(appHeader) ==> h == Some(Trim(appHeader.value))
    ensures h.None? <==> !HasText(taskHeader) && !HasText(appHeader)
    ensures h.Some? ==> h.value != "" && Trimmed(h.value) && Trim(h.value) == h.value
  {
    if HasText(taskHeader) then Some(Trim(taskHeader.value))
    else if HasText(appHeader) then Some(Trim(appHeader.value))
    else None
  }

  /** `parts.join('\n\n')` where `parts` is the chosen header (if any) then the raw template. */
  function WorkingText(header: Option<string>, template: string): (w: string)
    ensures header.None? ==> w == template
    ensures header.Some? ==> w == header.value + "\n\n" + template
  {
    var parts := (if header.Some? then [header.value] else []) + [template];
    assert header.Some? ==> |parts| == 2 && parts[0] == header.value && Join(parts[1..], "\n\n") == template;
    Join(parts, "\n\n")
  }

  // ---------------------------------------------------------------------------
  // Step 3: the `<<fixed>>` pass

  /** The replacement text: the fixed content when it is truthy, else the empty string. */
  function FixedReplacement(fixedContent: Option<string>): string {
    if fixedContent.Some? && fixedContent.value != "" then fixedContent.value else ""
  }

  /** `text.replace(/<<fixed>>/g, fixed_content)` or `text.replace(/<<fixed>>/g, '')`. */
  function ResolveFixed(text: string, fixedContent: Option<string>): string {
    ReplaceAll(text, FixedMarker, FixedReplacement(fixedContent))
  }

  /**
   * The pass cuts the text at every non-overlapping marker and glues the pieces
   * back with the replacement; no piece contains the marker.
   */
  lemma ResolveFixedPieces(text: string, fixedContent: Option<string>)
    ensures var pieces := SplitOn(text, FixedMarker);
            && Join(pieces, FixedMarker) == text
            && ResolveFixed(text, fixedContent) == Join(pieces, FixedReplacement(fixedContent))
            && forall p :: p in pieces ==> !Contains(p, FixedMarker)
  {
    SplitOnJoin(text, FixedMarker);
    ReplaceAllIsSplitJoin(text, FixedMarker, FixedReplacement(fixedContent));
    SplitOnPiecesFree(text, FixedMarker);
  }

  /** A text without the marker passes through unchanged. */
  lemma ResolveFixedAbsent(text: string, fixedContent: Option<string>)
    requires !Contains(text, FixedMarker)
    ensures ResolveFixed(text, fixedContent) == text
  {
    ReplaceAllAbsent(text, FixedMarker, FixedReplacement(fixedContent));
  }

  /** The pass is single-shot: a marker inside the fixed content is left in place. */
  lemma ResolveFixedSingleShot(before: string, content: string, after: string)
    requires '<' !in before && !Contains(after, FixedMarker) && content != ""
    ensures ResolveFixed(before + FixedMarker + after, Some(content)) == before + content + after
  {
    var s := before + FixedMarker + after;
    assert s == before + (FixedMarker + after);
    forall i | 0 <= i < |before|
      ensures !StartsWith(s[i..], FixedMarker)
    {
      assert s[i..][0] == before[i];
    }
    ReplaceAllSkipsPlain(before, FixedMarker + after, FixedMarker, content);
    assert StartsWith(FixedMarker + after, FixedMarker);
    assert (FixedMarker + after)[|FixedMarker|..] == after;
    ReplaceAllAbsent(after, FixedMarker, content);
  }

  /**
   * Without fixed content the markers are deleted, but the pieces around a deleted
   * marker can join into a new one, which the single left-to-right pass never sees.
   */
  lemma ResolveFixedCanReformMarker(front: string, back: string)
    requires front == "<<fix" && back == "ed>>"
    ensures front + back == FixedMarker
    ensures ResolveFixed(front + FixedMarker + back, None) == FixedMarker
  {
    var s := front + FixedMarker + back;
    assert s == front + (FixedMarker + back);
    forall i | 0 <= i < |front|
      ensures !StartsWith(s[i..], FixedMarker)
    {
      assert s[i..][..9][5] == s[i + 5];
    }
    ReplaceAllSkipsPlain(front, FixedMarker + back, FixedMarker, "");
    assert StartsWith(FixedMarker + back, FixedMarker);
    assert (FixedMarker + back)[9..] == back;
    ContainsIff(back, FixedMarker);
    ReplaceAllAbsent(back, FixedMarker, "");
  }

  /** Characters that cannot start an occurrence are copied as they are. */
  lemma {:induction false} ReplaceAllSkipsPlain(a: string, b: string, pat: string, rep: string)
    requires |pat| > 0
    requires forall i :: 0 <= i < |a| ==> !StartsWith((a + b)[i..], pat)
    ensures ReplaceAll(a + b, pat, rep) == a + ReplaceAll(b, pat, rep)
    decreases |a|
  {
    if |a| > 0 {
      assert (a + b)[0..] == a + b && (a + b)[0] == a[0];
      assert (a + b)[1..] == a[1..] + b;
      forall i | 0 <= i < |a[1..]|
        ensures !StartsWith((a[1..] + b)[i..], pat)
      {
        assert (a[1..] + b)[i..] == (a + b)[i + 1..];
      }
      ReplaceAllSkipsPlain(a[1..], b, pat, rep);
    } else {
      assert a + b == b;
    }
  }

  // ---------------------------------------------------------------------------
  // Step 4: merging the value maps

  /** `{ ...global_values, ...task_values, ...field_values, ...runtime_context }`. */
  function MergeValues(globalValues: seq<(string, string)>, taskValues: seq<(string, string)>,
                       fieldValues: seq<(string, string)>, runtimeContext: seq<(string, string)>): (m: seq<(string, string)>)
    ensures DistinctKeys(m)
  {
    Assign(Assign(Assign(Assign([], globalValues), taskValues), fieldValues), runtimeContext)
  }

  /** On a key collision the runtime context beats the field values, which beat the task values, which beat the global values. */
  lemma MergePrecedence(g: seq<(string, string)>, t: seq<(string, string)>,
                        f: seq<(string, string)>, r: seq<(string, string)>, k: string)
    ensures Lookup(MergeValues(g, t, f, r), k) ==
            if Lookup(r, k).Some? then Lookup(r, k)
            else if Lookup(f, k).Some? then Lookup(f, k)
            else if Lookup(t, k).Some? then Lookup(t, k)
            else Lookup(g, k)
  {
    var m1 := Assign([], g);
    var m2 := Assign(m1, t);
    var m3 := Assign(m2, f);
    AssignLookup([], g, k);
    AssignLookup(m1, t, k);
    AssignLookup(m2, f, k);
    AssignLookup(m3, r, k);
  }

  // ---------------------------------------------------------------------------
  // Step 5: substitution

  function Placeholder(key: string): (p: string)
    ensures |p| == |key| + 4
  {
    "{{" + key + "}}"
  }

  predicate KeyChar(c: char) {
    'a' <= c <= 'z' || '0' <= c <= '9' || c == '_'
  }

  /**
   * Keys the model admits: field-name characters only (the key is spliced into a
   * `RegExp` unescaped), and not all digits (`Object.entries` lists array-index
   * keys first, in numeric order).
   */
  predicate ValidKey(k: string) {
    (forall i :: 0 <= i < |k| ==> KeyChar(k[i])) && !(|k| > 0 && forall i :: 0 <= i < |k| ==> '0' <= k[i] <= '9')
  }

  /** Values the model admits: `String.replace` would expand `$&`, `$1`, `$$` in a replacement. */
  predicate ValidReplacement(v: string) {
    '$' !in v
  }

  predicate ValidValues(values: seq<(string, string)>) {
    forall p :: p in values ==> ValidKey(p.0) && ValidReplacement(p.1)
  }

  /** Merging admissible value maps gives an admissible value map. */
  lemma MergeValuesValid(g: seq<(string, string)>, t: seq<(string, string)>,
                         f: seq<(string, string)>, r: seq<(string, string)>)
    requires ValidValues(g) && ValidValues(t) && ValidValues(f) && ValidValues(r)
    ensures ValidValues(MergeValues(g, t, f, r))
  {
  }

  /** `text.replace(new RegExp("\\{\\{" + key + "\\}\\}", "g"), value ? String(value) : "")`. */
  function SubstituteKey(text: string, key: string, value: string): string {
    ReplaceAll(text, Placeholder(key), value)
  }

  /** The loop body applied to each entry in order; later entries see earlier results. */
  function SubstituteAll(text: string, values: seq<(string, string)>): string
    decreases |values|
  {
    if |values| == 0 then text
    else
      var last := values[|values| - 1];
      SubstituteKey(SubstituteAll(text, values[..|values| - 1]), last.0, last.1)
  }

  /** `for (const [key, value] of Object.entries(allValues)) finalPrompt = finalPrompt.replace(...)`. */
  method Substitute(text: string, values: seq<(string, string)>) returns (r: string)
    ensures r == SubstituteAll(text, values)
  {
    r := text;
    for i := 0 to |values|
      invariant r == SubstituteAll(text, values[..i])
    {
      var (key, value) := values[i];
      assert values[..i + 1][..i] == values[..i];
      r := SubstituteKey(r, key, value);
    }
    assert values[..|values|] == values;
  }

  /** One key's step replaces every non-overlapping `{{key}}`; the text between them keeps no `{{key}}`. */
  lemma SubstituteKeyPieces(text: string, key: string, value: string)
    ensures var pieces := SplitOn(text, Placeholder(key));
            && Join(pieces, Placeholder(key)) == text
            && SubstituteKey(text, key, value) == Join(pieces, value)
            && forall p :: p in pieces ==> !Contains(p, Placeholder(key))
  {
    SplitOnJoin(text, Placeholder(key));
    ReplaceAllIsSplitJoin(text, Placeholder(key), value);
    SplitOnPiecesFree(text, Placeholder(key));
  }

  /** A text in which no key's placeholder occurs comes out of the loop unchanged. */
  lemma {:induction false} SubstituteAllAbsent(text: string, values: seq<(string, string)>)
    requires forall i :: 0 <= i < |values| ==> !Contains(text, Placeholder(values[i].0))
    ensures SubstituteAll(text, values) == text
    decreases |values|
  {
    if |values| > 0 {
      var last := values[|values| - 1];
      SubstituteAllAbsent(text, values[..|values| - 1]);
      ReplaceAllAbsent(text, Placeholder(last.0), last.1);
    }
  }

  /** The steps are sequential: a value that holds a later key's placeholder is itself substituted. */
  lemma SubstituteIsSequential()
    ensures SubstituteAll("{{a}}", [("a", "{{b}}"), ("b", "x")]) == "x"
    ensures SubstituteAll("{{a}}", [("b", "x"), ("a", "{{b}}")]) == "{{b}}"
  {
    assert SubstituteKey("{{a}}", "a", "{{b}}") == "{{b}}" by {
      assert StartsWith("{{a}}", Placeholder("a"));
      assert "{{a}}"[5..] == "";
    }
    assert SubstituteKey("{{b}}", "b", "x") == "x" by {
      assert StartsWith("{{b}}", Placeholder("b"));
      assert "{{b}}"[5..] == "";
    }
    assert SubstituteKey("{{a}}", "b", "x") == "{{a}}" by {
      ContainsIff("{{a}}"[1..], Placeholder("b"));
      assert "{{a}}"[..5][2] == 'a';
      assert !StartsWith("{{a}}", Placeholder("b"));
      ReplaceAllAbsent("{{a}}", Placeholder("b"), "x");
    }
    var v1 := [("a", "{{b}}"), ("b", "x")];
    assert v1[..1] == [("a", "{{b}}")] && v1[..1][..0] == [];
    var v2 := [("b", "x"), ("a", "{{b}}")];
    assert v2[..1] == [("b", "x")] && v2[..1][..0] == [];
  }

  // ---------------------------------------------------------------------------
  // Index-based scanning helpers for the three regular-expression passes

  /** The end of the run of whitespace in `t` that starts at `from`. */
  function SpaceRun(t: string, from: nat): (e: nat)
    requires from <= |t|
    ensures from <= e <= |t|
    ensures forall i :: from <= i < e ==> IsSpace(t[i])
    ensures e < |t| ==> !IsSpace(t[e])
    decreases |t| - from
  {
    if from < |t| && IsSpace(t[from]) then SpaceRun(t, from + 1) else from
  }

  /** The first index at or after `from` that holds `c`, or `|t|`. */
  function FindFrom(t: string, from: nat, c: char): (e: nat)
    requires from <= |t|
    ensures from <= e <= |t|
    ensures forall i :: from <= i < e ==> t[i] != c
    ensures e < |t| ==> t[e] == c
    decreases |t| - from
  {
    if from < |t| && t[from] != c then FindFrom(t, from + 1, c) else from
  }

  /** The last index in `[lo, hi)` that holds `c`, or -1. */
  function LastIn(t: string, c: char, lo: nat, hi: nat): (p: int)
    requires lo <= hi <= |t|
    ensures p == -1 || (lo <= p < hi && t[p] == c)
    ensures forall i :: lo <= i < hi && i > p ==> t[i] != c
    decreases hi - lo
  {
    if lo == hi then -1
    else if t[hi - 1] == c then hi - 1
    else LastIn(t, c, lo, hi - 1)
  }

  // ---------------------------------------------------------------------------
  // Step 6a: `.replace(/\{\{[^}]+\}\}/g, "")`

  /** The first `n` characters of `t` read `{{`, one or more characters other than `}`, then `}}`. */
  predicate BracedAt(t: string, n: int) {
    5 <= n <= |t| && t[0] == '{' && t[1] == '{' && t[n - 2] == '}' && t[n - 1] == '}'
    && forall i :: 2 <= i < n - 2 ==> t[i] != '}'
  }

  /** The pattern tried at the start of `t`: it matches exactly the braced token that begins `t`, if any. */
  function BracedMatch(t: string): (m: Option<nat>)
    ensures m.Some? ==> BracedAt(t, m.value)
    ensures forall n :: BracedAt(t, n) ==> m == Some(n)
  {
    if 2 <= |t| && t[0] == '{' && t[1] == '{' then
      var close := FindFrom(t, 2, '}');
      if close > 2 && close + 1 < |t| && t[close + 1] == '}' then Some(close + 2) else None
    else
      None
  }

  /** Deletes every leftmost non-overlapping braced token. */
  function StripPlaceholders(t: string): string
    decreases |t|
  {
    if |t| == 0 then ""
    else match BracedMatch(t)
      case Some(n) => StripPlaceholders(t[n..])
      case None => [t[0]] + StripPlaceholders(t[1..])
  }

  /** A leading token is deleted. */
  lemma StripPlaceholdersToken(w: string, rest: string)
    requires BracedAt(w, |w|)
    ensures StripPlaceholders(w + rest) == StripPlaceholders(rest)
  {
    var t := w + rest;
    assert forall i :: 0 <= i < |w| ==> t[i] == w[i];
    assert BracedAt(t, |w|);
    assert t[|w|..] == rest;
  }

  /** Text that holds no `{` is kept, character for character. */
  lemma {:induction false} StripPlaceholdersPlain(a: string, rest: string)
    requires '{' !in a
    ensures StripPlaceholders(a + rest) == a + StripPlaceholders(rest)
    decreases |a|
  {
    if |a| > 0 {
      var t := a + rest;
      assert t[0] == a[0];
      assert t[1..] == a[1..] + rest;
      StripPlaceholdersPlain(a[1..], rest);
    } else {
      assert a + rest == rest;
    }
  }

  /** Text in which no `{` is followed by another `{` is kept as it is. */
  lemma {:induction false} StripPlaceholdersNoDoubleBrace(t: string)
    requires forall i :: 0 <= i < |t| - 1 ==> !(t[i] == '{' && t[i + 1] == '{')
    ensures StripPlaceholders(t) == t
    decreases |t|
  {
    if |t| > 0 {
      var u := t[1..];
      forall i | 0 <= i < |u| - 1
        ensures !(u[i] == '{' && u[i + 1] == '{')
      {
        assert u[i] == t[i + 1] && u[i + 1] == t[i + 2];
      }
      StripPlaceholdersNoDoubleBrace(t[1..]);
      assert [t[0]] + t[1..] == t;
    }
  }

  /** The pass does not reach a fixed point: deleting one token can splice another together. */
  lemma StripPlaceholdersCanLeaveToken(x: char, y: char)
    requires x != '{' && x != '}' && y != '{' && y != '}'
    ensures StripPlaceholders("{{" + [x] + "}{{" + [y] + "}}}") == "{{" + [x] + "}}"
  {
    var token := "{{" + [y] + "}}";
    assert BracedAt(token, 5);
    var w := token + "}";
    var v := [x, '}'] + w;
    var u := ['{'] + v;
    var t := ['{'] + u;
    assert t == "{{" + [x] + "}{{" + [y] + "}}}";
    StripPlaceholdersToken(token, "}");
    StripPlaceholdersPlain("}", "");
    assert StripPlaceholders(w) == "}";
    StripPlaceholdersPlain([x, '}'], w);
    assert u[1] == x;
    StripPlaceholdersKeep(u);
    assert t[2] == x && t[3] == '}' && t[4] == '{';
    assert FindFrom(t, 2, '}') == 3;
    StripPlaceholdersKeep(t);
    assert u[1..] == v && t[1..] == u;
  }

  /** A character no token starts at is kept. */
  lemma StripPlaceholdersKeep(t: string)
    requires |t| > 0 && BracedMatch(t).None?
    ensures StripPlaceholders(t) == [t[0]] + StripPlaceholders(t[1..])
  {
  }

  // ---------------------------------------------------------------------------
  // Step 6b: `.replace(/\(\s*\)/g, "")`

  /** The first `n` characters of `t` read `(`, whitespace only, then `)`. */
  predicate ParensAt(t: string, n: int) {
    2 <= n <= |t| && t[0] == '(' && t[n - 1] == ')' && forall i :: 1 <= i < n - 1 ==> IsSpace(t[i])
  }

  /** The pattern tried at the start of `t`: it matches exactly the empty pair that begins `t`, if any. */
  function ParensMatch(t: string): (m: Option<nat>)
    ensures m.Some? ==> ParensAt(t, m.value)
    ensures forall n :: ParensAt(t, n) ==> m == Some(n)
  {
    if |t| > 0 && t[0] == '(' then
      var close := SpaceRun(t, 1);
      if close < |t| && t[close] == ')' then Some(close + 1) else None
    else
      None
  }

  /** Deletes every leftmost non-overlapping empty pair of parentheses. */
  function StripEmptyParens(t: string): string
    decreases |t|
  {
    if |t| == 0 then ""
    else match ParensMatch(t)
      case Some(n) => StripEmptyParens(t[n..])
      case None => [t[0]] + StripEmptyParens(t[1..])
  }

  lemma StripEmptyParensToken(w: string, rest: string)
    requires ParensAt(w, |w|)
    ensures StripEmptyParens(w + rest) == StripEmptyParens(rest)
  {
    var t := w + rest;
    assert forall i :: 0 <= i < |w| ==> t[i] == w[i];
    assert ParensAt(t, |w|);
    assert t[|w|..] == rest;
  }

  lemma {:induction false} StripEmptyParensPlain(a: string, rest: string)
    requires '(' !in a
    ensures StripEmptyParens(a + rest) == a + StripEmptyParens(rest)
    decreases |a|
  {
    if |a| > 0 {
      var t := a + rest;
      assert t[0] == a[0];
      assert t[1..] == a[1..] + rest;
      StripEmptyParensPlain(a[1..], rest);
    } else {
      assert a + rest == rest;
    }
  }

  // ---------------------------------------------------------------------------
  // Step 6c: `.replace(/\s+at\s*(\n|$)/g, "$1")`

  /** The first `end` characters of `t` read `\s+at\s*`, with `at` at index `j`. */
  predicate AtRun(t: string, j: int, end: int) {
    1 <= j && j + 2 <= end <= |t| && t[j] == 'a' && t[j + 1] == 't'
    && (forall i :: 0 <= i < j ==> IsSpace(t[i]))
    && (forall i :: j + 2 <= i < end ==> IsSpace(t[i]))
  }

  ghost predicate AtPrefix(t: string, end: int) {
    exists j :: AtRun(t, j, end)
  }

  /**
   * The first `n` characters of `t` are a match whose group 1 is `g`: `\s+at\s*`
   * followed by a newline, or by nothing at the very end of the input.
   */
  ghost predicate TrailingAtMatches(t: string, n: int, g: string) {
    || (g == "\n" && 1 <= n <= |t| && t[n - 1] == '\n' && AtPrefix(t, n - 1))
    || (g == "" && n == |t| && AtPrefix(t, n))
  }

  /** In any match the leading `\s+` is the whole leading whitespace run of `t`, and the trailing `\s*` stays inside the next run. */
  lemma AtRunForced(t: string, j': int, end: int)
    requires AtRun(t, j', end)
    ensures j' == SpaceRun(t, 0) && end <= SpaceRun(t, j' + 2)
  {
  }

  /** Any match ends where the pattern's own search would put it. */
  lemma TrailingAtMatchBound(t: string, n: int, g: string)
    requires TrailingAtMatches(t, n, g)
    ensures var j := SpaceRun(t, 0);
            && 1 <= j && j + 2 <= |t| && t[j] == 'a' && t[j + 1] == 't'
            && var e := SpaceRun(t, j + 2);
               && (g == "" ==> e == |t|)
               && (e < |t| ==> g == "\n" && j + 2 <= n - 1 < e)
  {
    var j' :| AtRun(t, j', n - |g|);
    AtRunForced(t, j', n - |g|);
  }

  /**
   * The pattern tried at the start of `t`: the length it consumes and the text of
   * group 1. The greedy `\s*` makes the engine take the longest match, and it
   * tries the end of input before a final newline.
   */
  function TrailingAtMatch(t: string): (m: Option<(nat, string)>)
    ensures m.Some? ==> 3 <= m.value.0 <= |t| && TrailingAtMatches(t, m.value.0, m.value.1)
    ensures forall n, g :: TrailingAtMatches(t, n, g) ==> m.Some? && n <= m.value.0
    ensures TrailingAtMatches(t, |t|, "") ==> m == Some((|t|, ""))
  {
    var j := SpaceRun(t, 0);
    if j == 0 || j + 2 > |t| || t[j] != 'a' || t[j + 1] != 't' then
      assert forall n, g :: !TrailingAtMatches(t, n, g) by {
        forall n, g | TrailingAtMatches(t, n, g)
          ensures false
        {
          TrailingAtMatchBound(t, n, g);
        }
      }
      None
    else
      var e := SpaceRun(t, j + 2);
      if e == |t| then
        assert AtRun(t, j, e);
        Some((e, ""))
      else
        var p := LastIn(t, '\n', j + 2, e);
        assert forall n, g :: TrailingAtMatches(t, n, g) ==> n - 1 <= p by {
          forall n, g | TrailingAtMatches(t, n, g)
            ensures n - 1 <= p
          {
            TrailingAtMatchBound(t, n, g);
          }
        }
        if p < 0 then
          None
        else
          assert AtRun(t, j, p);
          Some((p + 1, "\n"))
  }

  /** Replaces each match with its group 1. */
  function StripTrailingAt(t: string): string
    decreases |t|
  {
    if |t| == 0 then ""
    else match TrailingAtMatch(t)
      case Some((n, g)) => g + StripTrailingAt(t[n..])
      case None => [t[0]] + StripTrailingAt(t[1..])
  }

  /** Whitespace, `at` and whitespace at the very end of the input are removed with nothing put back. */
  lemma StripTrailingAtAtEnd(lead: string, trail: string)
    requires |lead| > 0 && AllSpace(lead) && AllSpace(trail)
    ensures StripTrailingAt(lead + "at" + trail) == ""
  {
    var t := lead + "at" + trail;
    assert AtRun(t, |lead|, |t|);
    assert TrailingAtMatches(t, |t|, "");
    assert t[|t|..] == "";
  }

  /** Before a following word, the match stops after the last newline and puts that newline back. */
  lemma StripTrailingAtBeforeLine(lead: string, trail: string, rest: string)
    requires |lead| > 0 && AllSpace(lead) && AllSpace(trail) && '\n' !in trail
    requires |rest| > 0 && !IsSpace(rest[0])
    ensures StripTrailingAt(lead + "at" + trail + "\n" + rest) == "\n" + StripTrailingAt(rest)
  {
    var t := lead + "at" + trail + "\n" + rest;
    var n := |lead| + 2 + |trail| + 1;
    assert t[n - 1] == '\n';
    assert AtRun(t, |lead|, n - 1);
    assert TrailingAtMatches(t, n, "\n");
    var m := TrailingAtMatch(t);
    assert t[n] == rest[0];
    assert SpaceRun(t, 0) == |lead|;
    assert SpaceRun(t, |lead| + 2) == n;
    assert m.value.0 == n;
    assert t[n..] == rest;
  }

  /** A word (text holding no whitespace) is kept, character for character. */
  lemma {:induction false} StripTrailingAtWord(a: string, rest: string)
    requires forall i :: 0 <= i < |a| ==> !IsSpace(a[i])
    ensures StripTrailingAt(a + rest) == a + StripTrailingAt(rest)
    decreases |a|
  {
    if |a| > 0 {
      var t := a + rest;
      assert t[0] == a[0];
      assert t[1..] == a[1..] + rest;
      StripTrailingAtWord(a[1..], rest);
    } else {
      assert a + rest == rest;
    }
  }

  /**
   * A dangling ` at` after a word at the end of the input is removed, so
   * `"Sent at "` becomes `"Sent"`.
   */
  lemma StripTrailingAtDangling(word: string, lead: string, trail: string)
    requires forall i :: 0 <= i < |word| ==> !IsSpace(word[i])
    requires |lead| > 0 && AllSpace(lead) && AllSpace(trail)
    ensures StripTrailingAt(word + lead + "at" + trail) == word
  {
    var rest := lead + "at" + trail;
    StripTrailingAtWord(word, rest);
    StripTrailingAtAtEnd(lead, trail);
    assert word + lead + "at" + trail == word + rest;
  }

  /**
   * The passes run in a fixed order, so a later pass can create what an earlier
   * one removes: deleting `()` in `{(){key}}` splices the placeholder `{{key}}`
   * together after the placeholder pass has run.
   */
  lemma CleanupCanFormPlaceholder(key: string)
    requires forall i :: 0 <= i < |key| ==> KeyChar(key[i])
    ensures StripTrailingAt(StripEmptyParens(StripPlaceholders("{()" + Placeholder(key)[1..]))) == Placeholder(key)
  {
    NoPlaceholderBeforeSplice(key);
    ParensSplice(key);
    PlaceholderIsWord(key);
    StripTrailingAtWord(Placeholder(key), "");
    assert Placeholder(key) + "" == Placeholder(key);
  }

  // `{(){key}}` holds no `{{`, so the placeholder pass keeps it.
  lemma NoPlaceholderBeforeSplice(key: string)
    requires forall i :: 0 <= i < |key| ==> KeyChar(key[i])
    ensures StripPlaceholders("{()" + Placeholder(key)[1..]) == "{()" + Placeholder(key)[1..]
  {
    var t := "{()" + Placeholder(key)[1..];
    forall i | 0 <= i < |t| - 1
      ensures !(t[i] == '{' && t[i + 1] == '{')
    {
      if i == 3 && |key| > 0 {
        assert t[4] == key[0];
      }
    }
    StripPlaceholdersNoDoubleBrace(t);
  }

  // Deleting the `()` of `{(){key}}` leaves `{{key}}`.
  lemma ParensSplice(key: string)
    requires forall i :: 0 <= i < |key| ==> KeyChar(key[i])
    ensures StripEmptyParens("{()" + Placeholder(key)[1..]) == Placeholder(key)
  {
    var tail := Placeholder(key)[1..];
    assert tail == "{" + key + "}}";
    assert '(' !in tail by {
      forall i | 0 <= i < |tail|
        ensures tail[i] != '('
      {
        if 1 <= i <= |key| {
          assert tail[i] == key[i - 1];
        }
      }
    }
    assert "{()" + tail == "{" + ("()" + tail);
    StripEmptyParensPlain("{", "()" + tail);
    StripEmptyParensToken("()", tail);
    StripEmptyParensPlain(tail, "");
    assert tail + "" == tail;
    assert "{" + tail == Placeholder(key);
  }

  // A placeholder of key characters holds no whitespace.
  lemma PlaceholderIsWord(key: string)
    requires forall i :: 0 <= i < |key| ==> KeyChar(key[i])
    ensures forall i :: 0 <= i < |Placeholder(key)| ==> !IsSpace(Placeholder(key)[i])
  {
    var p := Placeholder(key);
    forall i | 0 <= i < |p|
      ensures !IsSpace(p[i])
    {
      if 2 <= i < |key| + 2 {
        assert p[i] == key[i - 2];
      }
    }
  }

  // ---------------------------------------------------------------------------
  // Step 6d: `cleanPrompt`

  /** `text.split('\n').map(trim).filter(nonEmpty).join('\n\n')`. */
  function CleanPrompt(text: string): string {
    Join(NonBlankLines(text), "\n\n")
  }

  /** A list of lines as the normaliser leaves them. */
  predicate CleanLines(lines: seq<string>) {
    forall i :: 0 <= i < |lines| ==> lines[i] != "" && Trimmed(lines[i]) && '\n' !in lines[i]
  }

  /** The lines with an empty line between every two: what `\n\n` separators look like to `split('\n')`. */
  function Spaced(lines: seq<string>): (parts: seq<string>)
    ensures |lines| >= 1 ==> |parts| == 2 * |lines| - 1
    ensures |lines| == 0 ==> parts == []
    ensures forall k :: 0 <= k < |parts| ==> parts[k] == if k % 2 == 0 then lines[k / 2] else ""
  {
    if |lines| <= 1 then lines
    else
      var rest := Spaced(lines[1..]);
      var parts := [lines[0], ""] + rest;
      assert forall k :: 2 <= k < |parts| ==> parts[k] == rest[k - 2];
      parts
  }

  lemma JoinSpaced(lines: seq<string>)
    ensures Join(lines, "\n\n") == Join(Spaced(lines), "\n")
  {
    JoinSpacedWith(lines, '\n');
  }

  // The same for any separator character `c`: joining with `cc` is joining the spaced lines with `c`.
  lemma {:induction false} JoinSpacedWith(lines: seq<string>, c: char)
    ensures Join(lines, [c, c]) == Join(Spaced(lines), [c])
    decreases |lines|
  {
    if |lines| > 1 {
      JoinSpacedWith(lines[1..], c);
      var rest := Spaced(lines[1..]);
      var x := Join(rest, [c]);
      var parts := [lines[0], ""] + rest;
      assert Spaced(lines) == parts;
      assert parts[1..] == [""] + rest;
      assert ([""] + rest)[1..] == rest;
      assert Join(parts, [c]) == lines[0] + [c] + Join([""] + rest, [c]);
      assert Join([""] + rest, [c]) == "" + [c] + x;
      assert Join(lines, [c, c]) == lines[0] + [c, c] + x;
      assert lines[0] + [c, c] + x == lines[0] + [c] + ("" + [c] + x);
    }
  }

  /**
   * Splitting a normalised text on `\n` gives the lines at even positions and an
   * empty string between every two: each line is trimmed and non-empty, and lines
   * are separated by exactly one blank line.
   */
  lemma SplitJoinedLines(lines: seq<string>)
    requires |lines| >= 1 && CleanLines(lines)
    ensures Split(Join(lines, "\n\n"), '\n') == Spaced(lines)
  {
    JoinSpaced(lines);
    var parts := Spaced(lines);
    forall p | p in parts
      ensures '\n' !in p
    {
      var k :| 0 <= k < |parts| && parts[k] == p;
    }
    SplitJoin(parts, '\n');
  }

  /** Trimming and dropping the blank lines of the spaced form gives back the lines. */
  lemma {:induction false} TrimmedNonEmptySpaced(lines: seq<string>)
    requires CleanLines(lines)
    ensures TrimmedNonEmpty(Spaced(lines)) == lines
    decreases |lines|
  {
    if |lines| == 1 {
      KeptClean(lines[0]);
    } else if |lines| > 1 {
      var rest := Spaced(lines[1..]);
      SpacedCons(lines);
      TrimmedNonEmptySpaced(lines[1..]);
      TrimmedNonEmptyAppend([lines[0], ""], rest);
      KeptClean(lines[0]);
      HeadAndTail(lines);
    }
  }

  lemma HeadAndTail<T>(s: seq<T>)
    requires |s| > 0
    ensures s == [s[0]] + s[1..]
  {
  }

  // Spacing a list of two or more lines: its first line, a blank line, then the rest spaced.
  lemma SpacedCons(lines: seq<string>)
    requires |lines| > 1 && CleanLines(lines)
    ensures Spaced(lines) == [lines[0], ""] + Spaced(lines[1..])
    ensures CleanLines(lines[1..])
  {
    assert forall i :: 0 <= i < |lines[1..]| ==> lines[1..][i] == lines[i + 1];
  }

  // A clean line survives alone and swallows the blank line after it.
  lemma KeptClean(x: string)
    requires x != "" && Trimmed(x)
    ensures TrimmedNonEmpty([x]) == [x]
    ensures TrimmedNonEmpty([x, ""]) == [x]
  {
    assert TrimmedNonEmpty([x]) == KeptLine(x) + TrimmedNonEmpty([]);
    assert [x, ""][1..] == [""];
    assert TrimmedNonEmpty([""]) == KeptLine("") + TrimmedNonEmpty([]);
  }

  /** Normalising a normalised list of lines gives back the same lines. */
  lemma NonBlankLinesOfJoin(lines: seq<string>)
    requires CleanLines(lines)
    ensures NonBlankLines(Join(lines, "\n\n")) == lines
  {
    if |lines| == 0 {
      assert Split("", '\n') == [""];
      assert TrimmedNonEmpty([""]) == KeptLine("") + TrimmedNonEmpty([]);
    } else {
      SplitJoinedLines(lines);
      TrimmedNonEmptySpaced(lines);
    }
  }

  /** The output of `cleanPrompt` is laid out as its own lines joined by blank lines. */
  lemma CleanPromptShape(text: string)
    ensures var lines := NonBlankLines(text);
            && CleanLines(lines)
            && NonBlankLines(CleanPrompt(text)) == lines
            && (|lines| > 0 ==> Split(CleanPrompt(text), '\n') == Spaced(lines))
  {
    var lines := NonBlankLines(text);
    assert forall i :: 0 <= i < |lines| ==> lines[i] in lines;
    NonBlankLinesOfJoin(lines);
    if |lines| > 0 {
      SplitJoinedLines(lines);
    }
  }

  /** `cleanPrompt(cleanPrompt(x)) == cleanPrompt(x)`. */
  lemma CleanPromptIdempotent(text: string)
    ensures CleanPrompt(CleanPrompt(text)) == CleanPrompt(text)
  {
    CleanPromptShape(text);
  }

  // ---------------------------------------------------------------------------
  // The whole pipeline

  /** The three regular-expression passes, in the order the source chains them. */
  function Cleanup(text: string): string {
    StripTrailingAt(StripEmptyParens(StripPlaceholders(text)))
  }

  /** The composed prompt for an already merged value list. */
  function ComposeSpec(taskHeader: Option<string>, appHeader: Option<string>, template: string,
                       values: seq<(string, string)>, fixedContent: Option<string>): string
  {
    var working := WorkingText(SelectHeader(taskHeader, appHeader), template);
    CleanPrompt(Cleanup(SubstituteAll(ResolveFixed(working, fixedContent), values)))
  }

  /** Lines 69-124 of the route: the working text is built, then rewritten step by step. */
  method Compose(taskHeader: Option<string>, appHeader: Option<string>, template: string,
                 values: seq<(string, string)>, fixedContent: Option<string>) returns (prompt: string)
    requires ValidValues(values)
    requires fixedContent.Some? ==> ValidReplacement(fixedContent.value)
    ensures prompt == ComposeSpec(taskHeader, appHeader, template, values, fixedContent)
    ensures CleanPrompt(prompt) == prompt
  {
    var parts: seq<string> := [];
    if HasText(taskHeader) {
      parts := parts + [Trim(taskHeader.value)];
    } else if HasText(appHeader) {
      parts := parts + [Trim(appHeader.value)];
    }
    parts := parts + [template];
    var finalPrompt := Join(parts, "\n\n");
    if fixedContent.Some? && fixedContent.value != "" {
      finalPrompt := ReplaceAll(finalPrompt, FixedMarker, fixedContent.value);
    } else {
      finalPrompt := ReplaceAll(finalPrompt, FixedMarker, "");
    }
    finalPrompt := Substitute(finalPrompt, values);
    prompt := StripTrailingAt(StripEmptyParens(StripPlaceholders(finalPrompt)));
    prompt := CleanPrompt(prompt);
    CleanPromptIdempotent(StripTrailingAt(StripEmptyParens(StripPlaceholders(finalPrompt))));
  }
}
