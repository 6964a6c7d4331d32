/**
 * The field helpers of the builder page: the template generated from a field
 * list (after sorting the list in place by `order`), the order given to the next
 * field, and the payload the field creator sends.
 */
module Builder {
  import opened Wrappers
  import opened Strings
  import opened Slug

  /** The field types the builder offers. */
  datatype FieldType = Text | Textarea | Select | Number

  /** A field row; `options` and `default_value` are `null` when absent. */
  datatype FieldRow = FieldRow(
    fieldName: string,
    fieldLabel: string,
    fieldType: FieldType,
    required: bool,
    order: int,
    options: Option<seq<string>>,
    defaultValue: Option<string>)

  // ---------------------------------------------------------------------------
  // Sorting by order: `fields.sort((a, b) => a.order - b.order)`, which is stable.
  // ---------------------------------------------------------------------------

  predicate SortedByOrder(s: seq<FieldRow>) {
    forall i, j :: 0 <= i < j < |s| ==> s[i].order <= s[j].order
  }

  /** The rows of `s` whose order is `k`, in their order in `s`. */
  function WithOrder(s: seq<FieldRow>, k: int): seq<FieldRow>
  {
    if |s| == 0 then []
    else WithOrder(s[..|s| - 1], k) + (if s[|s| - 1].order == k then [s[|s| - 1]] else [])
  }

  /** `x` placed after every row of `s`, counted from the right, whose order is not larger. */
  function Insert(s: seq<FieldRow>, x: FieldRow): (r: seq<FieldRow>)
    ensures |r| == |s| + 1
    decreases |s|
  {
    if |s| == 0 || s[|s| - 1].order <= x.order then s + [x]
    else Insert(s[..|s| - 1], x) + [s[|s| - 1]]
  }

  /** Inserting adds `x` and keeps every other row. */
  lemma {:induction false} InsertMultiset(s: seq<FieldRow>, x: FieldRow)
    ensures multiset(Insert(s, x)) == multiset(s) + multiset{x}
    decreases |s|
  {
    if |s| > 0 && s[|s| - 1].order > x.order {
      InsertMultiset(s[..|s| - 1], x);
      assert s == s[..|s| - 1] + [s[|s| - 1]];
    }
  }

  /** The stable sort by `order`: each row is inserted into the sorted rows before it. */
  function SortByOrder(s: seq<FieldRow>): (r: seq<FieldRow>)
    ensures |r| == |s|
  {
    if |s| == 0 then [] else Insert(SortByOrder(s[..|s| - 1]), s[|s| - 1])
  }

  /** The sort is a permutation of its input. */
  lemma {:induction false} SortByOrderPermutes(s: seq<FieldRow>)
    ensures multiset(SortByOrder(s)) == multiset(s)
  {
    if |s| > 0 {
      var front, last := s[..|s| - 1], s[|s| - 1];
      SortByOrderPermutes(front);
      InsertMultiset(SortByOrder(front), last);
      assert SortByOrder(s) == Insert(SortByOrder(front), last);
      assert s == front + [last];
    }
  }

  /** Inserting a row into rows bounded by `b` keeps them bounded when the row is. */
  lemma {:induction false} InsertBounded(s: seq<FieldRow>, x: FieldRow, b: int)
    requires forall i :: 0 <= i < |s| ==> s[i].order <= b
    requires x.order <= b
    ensures forall i :: 0 <= i < |Insert(s, x)| ==> Insert(s, x)[i].order <= b
    decreases |s|
  {
    if |s| == 0 || s[|s| - 1].order <= x.order {
      assert Insert(s, x) == s + [x];
    } else {
      InsertBounded(s[..|s| - 1], x, b);
      assert Insert(s, x) == Insert(s[..|s| - 1], x) + [s[|s| - 1]];
    }
  }

  lemma {:induction false} InsertSorted(s: seq<FieldRow>, x: FieldRow)
    requires SortedByOrder(s)
    ensures SortedByOrder(Insert(s, x))
    decreases |s|
  {
    if |s| > 0 && s[|s| - 1].order > x.order {
      var front := s[..|s| - 1];
      var last := s[|s| - 1];
      InsertSorted(front, x);
      InsertBounded(front, x, last.order);
      var r := Insert(front, x);
      assert Insert(s, x) == r + [last];
      assert forall i, j :: 0 <= i < j < |r| + 1 ==> (r + [last])[i].order <= (r + [last])[j].order by {
        forall i, j | 0 <= i < j < |r| + 1
          ensures (r + [last])[i].order <= (r + [last])[j].order
        {
          assert (r + [last])[i] == r[i];
          if j == |r| {
            assert r[i].order <= last.order;
          } else {
            assert (r + [last])[j] == r[j];
          }
        }
      }
    } else {
      assert Insert(s, x) == s + [x];
    }
  }

  /** The sort puts the rows in non-decreasing order. */
  lemma {:induction false} SortByOrderSorted(s: seq<FieldRow>)
    ensures SortedByOrder(SortByOrder(s))
  {
    if |s| > 0 {
      SortByOrderSorted(s[..|s| - 1]);
      InsertSorted(SortByOrder(s[..|s| - 1]), s[|s| - 1]);
    }
  }

  lemma {:induction false} WithOrderAppend(a: seq<FieldRow>, b: seq<FieldRow>, k: int)
    ensures WithOrder(a + b, k) == WithOrder(a, k) + WithOrder(b, k)
    decreases |b|
  {
    if |b| == 0 {
      assert a + b == a;
    } else {
      var b' := b[..|b| - 1];
      assert (a + b)[..|a + b| - 1] == a + b';
      WithOrderAppend(a, b', k);
    }
  }

  lemma WithOrderSingle(x: FieldRow, k: int)
    ensures WithOrder([x], k) == if x.order == k then [x] else []
  {
    assert [x][..0] == [];
  }

  /** Inserting a row keeps the relative order of the rows that share any one order. */
  lemma {:induction false} InsertWithOrder(s: seq<FieldRow>, x: FieldRow, k: int)
    ensures WithOrder(Insert(s, x), k) == WithOrder(s, k) + WithOrder([x], k)
    decreases |s|
  {
    if |s| == 0 || s[|s| - 1].order <= x.order {
      assert Insert(s, x) == s + [x];
      WithOrderAppend(s, [x], k);
    } else {
      var front := s[..|s| - 1];
      var last := s[|s| - 1];
      assert Insert(s, x) == Insert(front, x) + [last];
      assert s == front + [last];
      InsertWithOrder(front, x, k);
      WithOrderAppend(Insert(front, x), [last], k);
      WithOrderAppend(front, [last], k);
      WithOrderSingle(x, k);
      WithOrderSingle(last, k);
      var wx, wl := WithOrder([x], k), WithOrder([last], k);
      var sortedPart := WithOrder(front, k);
      assert WithOrder(Insert(s, x), k) == sortedPart + wx + wl;
      assert WithOrder(s, k) == sortedPart + wl;
      if wx == [] {
        assert sortedPart + wx + wl == sortedPart + wl + wx;
      } else {
        assert wl == [];
        assert sortedPart + wx + wl == sortedPart + wl + wx;
      }
    }
  }

  /** The sort is stable: rows with equal order keep their input order. */
  lemma {:induction false} SortByOrderStable(s: seq<FieldRow>, k: int)
    ensures WithOrder(SortByOrder(s), k) == WithOrder(s, k)
  {
    if |s| > 0 {
      var front, last := s[..|s| - 1], s[|s| - 1];
      SortByOrderStable(front, k);
      assert SortByOrder(s) == Insert(SortByOrder(front), last);
      InsertWithOrder(SortByOrder(front), last, k);
      assert s == front + [last];
      WithOrderAppend(front, [last], k);
    }
  }

  /**
   * `Insert` puts `x` at `j` when the row before `j` is not larger than `x`
   * and every row from `j` on is larger.
   */
  lemma {:induction false} InsertAt(s: seq<FieldRow>, x: FieldRow, j: int)
    requires 0 <= j <= |s| && (j == 0 || s[j - 1].order <= x.order)
    requires forall k :: j <= k < |s| ==> s[k].order > x.order
    ensures Insert(s, x) == s[..j] + [x] + s[j..]
    decreases |s|
  {
    if j < |s| {
      var front := s[..|s| - 1];
      InsertAt(front, x, j);
      assert front[..j] == s[..j];
      assert front[j..] + [s[|s| - 1]] == s[j..];
    }
  }

  /** The sort step that adds `input[i]` to the sorted prefix. */
  lemma SortStep(input: seq<FieldRow>, i: int)
    requires 0 <= i < |input|
    ensures SortByOrder(input[..i + 1]) == Insert(SortByOrder(input[..i]), input[i])
  {
    assert input[..i + 1][..i] == input[..i];
  }

  /** The array after the insertion step, read as a sequence. */
  lemma InsertedLayout(cur: seq<FieldRow>, sorted: seq<FieldRow>, x: FieldRow, j: int, i: int)
    requires 0 <= j <= i < |cur| && |sorted| == i
    requires forall k :: 0 <= k < j ==> cur[k] == sorted[k]
    requires cur[j] == x
    requires forall k :: j < k <= i ==> cur[k] == sorted[k - 1]
    ensures cur[..i + 1] == sorted[..j] + [x] + sorted[j..]
  {
    var r := sorted[..j] + [x] + sorted[j..];
    forall k | 0 <= k <= i
      ensures cur[k] == r[k]
    {
      if k > j {
        assert r[k] == sorted[j..][k - j - 1];
      }
    }
  }

  /** The insertion step: `a[i]` moves left past every larger row of `a[..i]`. */
  method InsertInPlace(a: array<FieldRow>, i: int)
    requires 0 <= i < a.Length
    modifies a
    ensures a[..i + 1] == Insert(old(a[..i]), old(a[i]))
    ensures a[i + 1..] == old(a[i + 1..])
  {
    var x := a[i];
    ghost var sorted := a[..i];
    var j := i;
    while j > 0 && a[j - 1].order > x.order
      invariant 0 <= j <= i
      invariant forall k :: 0 <= k < j ==> a[k] == sorted[k]
      invariant forall k :: j < k <= i ==> a[k] == sorted[k - 1]
      invariant forall k :: i < k < a.Length ==> a[k] == old(a[k])
      invariant forall k :: j <= k < i ==> sorted[k].order > x.order
    {
      a[j] := a[j - 1];
      j := j - 1;
    }
    a[j] := x;
    InsertAt(sorted, x, j);
    InsertedLayout(a[..], sorted, x, j, i);
    SameAfter(a[..], old(a[..]), i);
  }

  lemma SameAfter(cur: seq<FieldRow>, prev: seq<FieldRow>, i: int)
    requires 0 <= i < |cur| == |prev|
    requires forall k :: i < k < |cur| ==> cur[k] == prev[k]
    ensures cur[i + 1..] == prev[i + 1..]
  {
  }

  /** `fields.sort((a, b) => a.order - b.order)`, as the insertion sort it is for short arrays. */
  method SortFieldsByOrder(a: array<FieldRow>)
    modifies a
    ensures a[..] == SortByOrder(old(a[..]))
  {
    ghost var input := a[..];
    var i := 0;
    while i < a.Length
      invariant 0 <= i <= a.Length
      invariant a[..i] == SortByOrder(input[..i])
      invariant a[i..] == input[i..]
    {
      assert a[i] == input[i];
      InsertInPlace(a, i);
      SortStep(input, i);
      i := i + 1;
    }
    assert input[..a.Length] == input;
  }

  // ---------------------------------------------------------------------------
  // The generated template.
  // ---------------------------------------------------------------------------

  const TemplateHeader := "You are a [define here]"

  /** `${f.field_label}: {{${f.field_name}}}`. */
  function FieldLine(f: FieldRow): string {
    f.fieldLabel + ": {{" + f.fieldName + "}}"
  }

  function FieldLines(fields: seq<FieldRow>): (lines: seq<string>)
    ensures |lines| == |fields|
    ensures forall i :: 0 <= i < |fields| ==> lines[i] == FieldLine(fields[i])
  {
    seq(|fields|, i requires 0 <= i < |fields| => FieldLine(fields[i]))
  }

  /** The header alone for no fields, else the header, a blank line and one line per field. */
  function TemplateText(fields: seq<FieldRow>): (t: string)
    ensures |fields| == 0 ==> t == TemplateHeader
  {
    if |fields| == 0 then TemplateHeader
    else TemplateHeader + "\n\n" + Join(FieldLines(fields), "\n")
  }

  /** `generateTemplateFromFields`: sorts `fields` in place, then writes the template of the sorted list. */
  method GenerateTemplateFromFields(fields: array<FieldRow>) returns (t: string)
    modifies fields
    ensures fields[..] == SortByOrder(old(fields[..]))
    ensures t == TemplateText(fields[..])
  {
    if fields.Length == 0 {
      return TemplateHeader;
    }
    SortFieldsByOrder(fields);
    t := TemplateText(fields[..]);
  }

  /** Labels and names hold no line break. */
  predicate SingleLine(fields: seq<FieldRow>) {
    forall i :: 0 <= i < |fields| ==> '\n' !in fields[i].fieldLabel && '\n' !in fields[i].fieldName
  }

  /**
   * A header, a blank line and lines joined by the separator split back into
   * those lines, when neither the header nor the lines hold the separator.
   */
  lemma HeaderAndLines(header: string, lines: seq<string>, sep: char)
    requires sep !in header && |lines| > 0 && forall p :: p in lines ==> sep !in p
    ensures Split(header + [sep, sep] + Join(lines, [sep]), sep) == [header, ""] + lines
  {
    var body := Join(lines, [sep]);
    SplitJoin(lines, sep);
    SplitBlankLine(header, body, sep);
    DoubledSeparator(header, sep, body);
  }

  lemma DoubledSeparator<T>(a: seq<T>, x: T, b: seq<T>)
    ensures a + [x, x] + b == a + [x] + [x] + b
  {
  }

  // A separator-free first piece, then an empty piece, then whatever `body` splits into.
  lemma SplitBlankLine(header: string, body: string, sep: char)
    requires sep !in header
    ensures Split(header + [sep] + [sep] + body, sep) == [header, ""] + Split(body, sep)
  {
    SplitAtSeparator(header, sep, [sep] + body);
    SplitAtSeparator([], sep, body);
    SplitNoSeparator(header, sep);
    SplitNoSeparator([], sep);
    assert [] + [sep] + body == [sep] + body;
    assert header + [sep] + [sep] + body == header + [sep] + ([sep] + body);
  }

  /**
   * Read back line by line, a generated template is the header, a blank line, and
   * then exactly one `label: {{name}}` line per field, in the list's order.
   */
  lemma TemplateLines(fields: seq<FieldRow>)
    requires |fields| > 0 && SingleLine(fields)
    ensures Split(TemplateText(fields), '\n') == [TemplateHeader, ""] + FieldLines(fields)
  {
    var lines := FieldLines(fields);
    forall l | l in lines
      ensures '\n' !in l
    {
      var i :| 0 <= i < |lines| && lines[i] == l;
      assert l == fields[i].fieldLabel + ": {{" + fields[i].fieldName + "}}";
    }
    HeaderAndLines(TemplateHeader, lines, '\n');
  }

  /**
   * The lines of the generated template come in non-decreasing order, with
   * fields of equal order in their input order, and every field gives one line.
   */
  lemma GeneratedLinesOrdered(input: seq<FieldRow>, k: int)
    requires |input| > 0 && SingleLine(input)
    ensures var sorted := SortByOrder(input);
            && Split(TemplateText(sorted), '\n') == [TemplateHeader, ""] + FieldLines(sorted)
            && SortedByOrder(sorted) && multiset(sorted) == multiset(input)
            && WithOrder(sorted, k) == WithOrder(input, k)
  {
    var sorted := SortByOrder(input);
    SortByOrderPermutes(input);
    forall i | 0 <= i < |sorted|
      ensures '\n' !in sorted[i].fieldLabel && '\n' !in sorted[i].fieldName
    {
      assert sorted[i] in multiset(sorted);
      var m :| 0 <= m < |input| && input[m] == sorted[i];
    }
    TemplateLines(sorted);
    SortByOrderSorted(input);
    SortByOrderStable(input, k);
  }

  // ---------------------------------------------------------------------------
  // The order of the next field.
  // ---------------------------------------------------------------------------

  /** `fields.reduce((m, f) => Math.max(m, f.order || 0), 0)`. */
  function MaxOrder(fields: seq<FieldRow>): (m: int)
    ensures m >= 0
    ensures forall i :: 0 <= i < |fields| ==> fields[i].order <= m
    ensures m == 0 || exists i :: 0 <= i < |fields| && fields[i].order == m
  {
    if |fields| == 0 then 0
    else
      var m := MaxOrder(fields[..|fields| - 1]);
      var o := fields[|fields| - 1].order;
      if m >= o then m else o
  }

  /** `nextGlobalOrder` / `nextTaskOrder`: one past the largest order, with 0 as the floor. */
  function NextOrder(fields: seq<FieldRow>): (n: int)
    ensures n >= 1
    ensures forall i :: 0 <= i < |fields| ==> fields[i].order < n
    ensures n == 1 || exists i :: 0 <= i < |fields| && fields[i].order == n - 1
  {
    MaxOrder(fields) + 1
  }

  // ---------------------------------------------------------------------------
  // The field creator's payload.
  // ---------------------------------------------------------------------------

  /**
   * The row the "Add field" button sends, from the creator's inputs: the label,
   * the name, the type, the required box, the options text and the default text.
   */
  function NewFieldPayload(labelText: string, nameText: string, fieldType: FieldType, required: bool,
                           optionsText: string, defaultText: string, nextOrder: int): (f: FieldRow)
    ensures f.fieldLabel == Trim(labelText)
    ensures f.fieldName == Slugify(if nameText != "" then nameText else labelText)
    ensures IsSlug(f.fieldName) && |f.fieldName| <= MaxSlugLength
    ensures f.fieldType == fieldType && f.required == required && f.order == nextOrder
    ensures f.options.Some? <==> fieldType == Select
    ensures f.options.Some? ==> f.options.value == NonBlankLines(optionsText)
    ensures f.defaultValue.None? <==> AllSpace(defaultText)
    ensures f.defaultValue.Some? ==> f.defaultValue.value == Trim(defaultText) && Trimmed(f.defaultValue.value)
  {
    var options := if fieldType == Select then Some(NonBlankLines(optionsText)) else None;
    var defaultValue := if Trim(defaultText) != "" then Some(Trim(defaultText)) else None;
    FieldRow(Slugify(if nameText != "" then nameText else labelText), Trim(labelText), fieldType, required, nextOrder,
             options, defaultValue)
  }

  /** A select's options are exactly the non-blank lines of the options text, trimmed. */
  lemma PayloadOptions(optionsText: string, o: string)
    ensures o in NonBlankLines(optionsText) <==>
              o != "" && exists k :: 0 <= k < |Split(optionsText, '\n')| && Trim(Split(optionsText, '\n')[k]) == o
    ensures o in NonBlankLines(optionsText) ==> Trimmed(o) && '\n' !in o
  {
    var parts := Split(optionsText, '\n');
    assert NonBlankLines(optionsText) == TrimmedNonEmpty(parts);
    TrimmedNonEmptyMembers(parts, o);
    if o in NonBlankLines(optionsText) {
      var k :| 0 <= k < |parts| && Trim(parts[k]) == o;
      assert Trim(Split(optionsText, '\n')[k]) == o;
    }
  }

  /** The name box always holds a slug, so a typed name reaches the payload unchanged. */
  lemma PayloadKeepsTypedName(labelText: string, typed: string, fieldType: FieldType, required: bool,
                              optionsText: string, defaultText: string, nextOrder: int)
    requires Slugify(typed) != ""
    ensures NewFieldPayload(labelText, Slugify(typed), fieldType, required, optionsText, defaultText, nextOrder).fieldName
            == Slugify(typed)
  {
    SlugifyIdempotent(typed);
  }
}
