/**
 * ASCII models of the JavaScript string operations the application relies on:
 * `trim`, `toLowerCase`, `split`, `join`, `includes` and a global replace of a
 * literal pattern (`s.replace(/lit/g, rep)`), together with the round-trip
 * facts that relate them.
 */
module Strings {

  /** JavaScript's `\s`, which is also the set `String.prototype.trim` strips (ASCII part). */
  predicate IsSpace(c: char) {
    c == ' ' || c == '\t' || c == '\n' || c == '\r' || c == '\U{0B}' || c == '\U{0C}'
  }

  predicate AllSpace(s: string) {
    forall i :: 0 <= i < |s| ==> IsSpace(s[i])
  }

  /** Neither end of `s` is whitespace. */
  predicate Trimmed(s: string) {
    |s| == 0 || (!IsSpace(s[0]) && !IsSpace(s[|s| - 1]))
  }

  /** The number of whitespace characters at the start of `s`. */
  function LeadingSpace(s: string): (n: nat)
    ensures n <= |s| && AllSpace(s[..n])
    ensures n < |s| ==> !IsSpace(s[n])
  {
    if |s| > 0 && IsSpace(s[0]) then
      var n := LeadingSpace(s[1..]);
      assert s[..n + 1] == [s[0]] + s[1..][..n];
      1 + n
    else 0
  }

  /** The index where the whitespace at the end of `s` begins. */
  function TrailingSpaceStart(s: string): (n: nat)
    ensures n <= |s| && AllSpace(s[n..])
    ensures n > 0 ==> !IsSpace(s[n - 1])
  {
    if |s| > 0 && IsSpace(s[|s| - 1]) then
      var n := TrailingSpaceStart(s[..|s| - 1]);
      assert s[n..] == s[..|s| - 1][n..] + [s[|s| - 1]];
      n
    else |s|
  }

  /** Leading whitespace across a concatenation: it runs into `b` only when `a` is all whitespace. */
  lemma {:induction false} LeadingSpaceAppend(a: string, b: string)
    ensures LeadingSpace(a) < |a| ==> LeadingSpace(a + b) == LeadingSpace(a)
    ensures LeadingSpace(a) == |a| ==> LeadingSpace(a + b) == |a| + LeadingSpace(b)
    decreases |a|
  {
    if |a| > 0 {
      assert (a + b)[0] == a[0];
      if IsSpace(a[0]) {
        assert (a + b)[1..] == a[1..] + b;
        LeadingSpaceAppend(a[1..], b);
      }
    } else {
      assert a + b == b;
    }
  }

  function TrimStart(s: string): (r: string)
    ensures |r| > 0 ==> !IsSpace(r[0])
  {
    s[LeadingSpace(s)..]
  }

  function TrimEnd(s: string): (r: string)
    ensures |r| > 0 ==> !IsSpace(r[|r| - 1])
  {
    s[..TrailingSpaceStart(s)]
  }

  /**
   * `String.prototype.trim`: the slice of `s` that starts after its leading
   * whitespace and is followed only by whitespace, with no whitespace at
   * either end of its own.
   */
  function Trim(s: string): (r: string)
    ensures Trimmed(r) && |r| <= |s|
    ensures LeadingSpace(s) + |r| <= |s| && r == s[LeadingSpace(s)..LeadingSpace(s) + |r|]
    ensures AllSpace(s[LeadingSpace(s) + |r|..])
    ensures Trimmed(s) ==> r == s
    ensures r == "" <==> AllSpace(s)
    ensures forall c :: c in r ==> c in s
  {
    var k := LeadingSpace(s);
    var t := TrimStart(s);
    var r := TrimEnd(t);
    assert r == s[k..k + |r|];
    assert s[k + |r|..] == t[|r|..];
    assert forall c :: c in r ==> c in t;
    assert forall c :: c in t ==> c in s;
    assert r == "" ==> AllSpace(s) by {
      if r == "" {
        assert s == s[..k] + t;
        assert t == "";
      }
    }
    r
  }

  /**
   * Trim as a definition: any slice `s[i..j]` that is not empty, has no
   * whitespace at its ends, and has only whitespace before and after it in
   * `s` is what `trim` returns.
   */
  lemma TrimUnique(s: string, i: nat, j: nat)
    requires i < j <= |s| && Trimmed(s[i..j])
    requires AllSpace(s[..i]) && AllSpace(s[j..])
    ensures Trim(s) == s[i..j]
  {
    var k := LeadingSpace(s);
    var r := Trim(s);
    assert !IsSpace(s[i]) by { assert s[i..j][0] == s[i]; }
    assert !IsSpace(s[j - 1]) by { assert s[i..j][j - i - 1] == s[j - 1]; }
    assert k == i;
    assert r != "" by {
      assert !AllSpace(s);
    }
    var m := k + |r|;
    assert !IsSpace(s[m - 1]) by { assert r[|r| - 1] == s[m - 1]; }
    assert m == j;
  }

  lemma TrimIdempotent(s: string)
    ensures Trim(Trim(s)) == Trim(s)
  {
  }

  function LowerChar(c: char): (d: char)
    ensures 'A' <= c <= 'Z' ==> 'a' <= d <= 'z' && d as int == c as int + 32
    ensures !('A' <= c <= 'Z') ==> d == c
  {
    if 'A' <= c <= 'Z' then (c as int + 32) as char else c
  }

  /** `String.prototype.toLowerCase` on ASCII letters; every other character is kept. */
  function ToLower(s: string): (r: string)
    ensures |r| == |s|
    ensures forall i :: 0 <= i < |s| ==> r[i] == LowerChar(s[i])
  {
    seq(|s|, i requires 0 <= i < |s| => LowerChar(s[i]))
  }

  /** `s.split(sep)` for a one-character separator. */
  function Split(s: string, sep: char): (parts: seq<string>)
    ensures |parts| >= 1
    ensures forall p :: p in parts ==> sep !in p
    decreases |s|
  {
    if |s| == 0 then [""]
    else
      var rest := Split(s[1..], sep);
      if s[0] == sep then [""] + rest
      else [[s[0]] + rest[0]] + rest[1..]
  }

  /** `parts.join(sep)`. */
  function Join(parts: seq<string>, sep: string): string
  {
    if |parts| == 0 then ""
    else if |parts| == 1 then parts[0]
    else parts[0] + sep + Join(parts[1..], sep)
  }

  lemma {:induction false} SplitNoSeparator(p: string, sep: char)
    requires sep !in p
    ensures Split(p, sep) == [p]
    decreases |p|
  {
    if |p| > 0 {
      SplitNoSeparator(p[1..], sep);
      assert [p[0]] + p[1..] == p;
    }
  }

  /** Splitting distributes over a separator occurrence. */
  lemma {:induction false} SplitAtSeparator(a: string, sep: char, b: string)
    ensures Split(a + [sep] + b, sep) == Split(a, sep) + Split(b, sep)
    decreases |a|
  {
    var s := a + [sep] + b;
    if |a| == 0 {
      assert s[1..] == b;
    } else {
      assert s[1..] == a[1..] + [sep] + b;
      SplitAtSeparator(a[1..], sep, b);
    }
  }

  /** Joining with the separator undoes splitting. */
  lemma {:induction false} JoinSplit(s: string, sep: char)
    ensures Join(Split(s, sep), [sep]) == s
    decreases |s|
  {
    if |s| > 0 {
      JoinSplit(s[1..], sep);
      var rest := Split(s[1..], sep);
      if s[0] != sep && |rest| > 1 {
        assert Join(rest, [sep]) == rest[0] + [sep] + Join(rest[1..], [sep]);
      }
    }
  }

  /** Splitting undoes joining, as long as no part contains the separator. */
  lemma {:induction false} SplitJoin(parts: seq<string>, sep: char)
    requires |parts| >= 1
    requires forall p :: p in parts ==> sep !in p
    ensures Split(Join(parts, [sep]), sep) == parts
    decreases |parts|
  {
    if |parts| == 1 {
      SplitNoSeparator(parts[0], sep);
    } else {
      SplitJoin(parts[1..], sep);
      SplitAtSeparator(parts[0], sep, Join(parts[1..], [sep]));
      SplitNoSeparator(parts[0], sep);
      assert parts == [parts[0]] + parts[1..];
    }
  }

  predicate StartsWith(s: string, prefix: string) {
    |prefix| <= |s| && s[..|prefix|] == prefix
  }

  /** `pat` is the slice of `s` that begins at index `i`. */
  predicate OccursAt(s: string, pat: string, i: int) {
    0 <= i && i + |pat| <= |s| && s[i..i + |pat|] == pat
  }

  /** `s.includes(pat)`, written as the left-to-right search it performs. */
  predicate Contains(s: string, pat: string)
    decreases |s|
  {
    StartsWith(s, pat) || (|s| > 0 && Contains(s[1..], pat))
  }

  /** The search finds `pat` exactly when `pat` is a slice of `s`. */
  lemma {:induction false} ContainsIff(s: string, pat: string)
    ensures Contains(s, pat) <==> exists i :: OccursAt(s, pat, i)
    decreases |s|
  {
    if StartsWith(s, pat) {
      assert OccursAt(s, pat, 0);
    }
    if |s| > 0 {
      ContainsIff(s[1..], pat);
      if exists i :: OccursAt(s, pat, i) {
        var i :| OccursAt(s, pat, i);
        if i > 0 {
          assert OccursAt(s[1..], pat, i - 1) by {
            assert s[1..][i - 1..i - 1 + |pat|] == s[i..i + |pat|];
          }
        }
      }
      if Contains(s[1..], pat) && !StartsWith(s, pat) {
        var i :| OccursAt(s[1..], pat, i);
        assert OccursAt(s, pat, i + 1) by {
          assert s[1..][i..i + |pat|] == s[i + 1..i + 1 + |pat|];
        }
      }
    } else {
      if exists i :: OccursAt(s, pat, i) {
        assert StartsWith(s, pat);
      }
    }
  }

  /** A string occurs in any text built around it. */
  lemma ContainsMiddle(a: string, b: string, c: string)
    ensures OccursAt(a + b + c, b, |a|)
    ensures Contains(a + b + c, b)
  {
    assert (a + b + c)[|a|..|a| + |b|] == b;
    ContainsIff(a + b + c, b);
    assert OccursAt(a + b + c, b, |a|);
  }

  lemma {:induction false} StartsWithPrefix(s: string, p: string, pat: string)
    requires StartsWith(s, p) && StartsWith(p, pat)
    ensures StartsWith(s, pat)
  {
    assert s[..|pat|] == p[..|pat|];
  }

  /**
   * `s.replace(/pat/g, rep)` for a literal pattern: the leftmost occurrence is
   * replaced, and the search resumes after it, so occurrences never overlap and
   * the replacement text is never searched again.
   */
  function ReplaceAll(s: string, pat: string, rep: string): string
    requires |pat| > 0
    decreases |s|
  {
    if |s| == 0 then ""
    else if StartsWith(s, pat) then rep + ReplaceAll(s[|pat|..], pat, rep)
    else [s[0]] + ReplaceAll(s[1..], pat, rep)
  }

  /** `s.split(pat)` for a literal pattern: the text between non-overlapping occurrences. */
  function SplitOn(s: string, pat: string): (pieces: seq<string>)
    requires |pat| > 0
    ensures |pieces| >= 1
    ensures StartsWith(s, pieces[0])
    decreases |s|
  {
    if |s| == 0 then [""]
    else if StartsWith(s, pat) then [""] + SplitOn(s[|pat|..], pat)
    else
      var rest := SplitOn(s[1..], pat);
      [[s[0]] + rest[0]] + rest[1..]
  }

  /** Replacing every occurrence is splitting on the pattern and joining with the replacement. */
  lemma {:induction false} ReplaceAllIsSplitJoin(s: string, pat: string, rep: string)
    requires |pat| > 0
    ensures ReplaceAll(s, pat, rep) == Join(SplitOn(s, pat), rep)
    decreases |s|
  {
    if |s| > 0 {
      if StartsWith(s, pat) {
        ReplaceAllIsSplitJoin(s[|pat|..], pat, rep);
      } else {
        ReplaceAllIsSplitJoin(s[1..], pat, rep);
        var rest := SplitOn(s[1..], pat);
        if |rest| > 1 {
          assert Join(rest, rep) == rest[0] + rep + Join(rest[1..], rep);
        }
      }
    }
  }

  /** The pieces and the occurrences between them make up the whole text. */
  lemma {:induction false} SplitOnJoin(s: string, pat: string)
    requires |pat| > 0
    ensures Join(SplitOn(s, pat), pat) == s
    decreases |s|
  {
    if |s| > 0 {
      if StartsWith(s, pat) {
        var rest := SplitOn(s[|pat|..], pat);
        SplitOnJoin(s[|pat|..], pat);
        assert SplitOn(s, pat) == [""] + rest;
        JoinEmptyFront(rest, pat);
        assert s == pat + s[|pat|..];
      } else {
        var rest := SplitOn(s[1..], pat);
        SplitOnJoin(s[1..], pat);
        assert SplitOn(s, pat) == [[s[0]] + rest[0]] + rest[1..];
        JoinGrownFront(s[0], rest, pat);
        assert s == [s[0]] + s[1..];
      }
    }
  }

  lemma JoinEmptyFront(rest: seq<string>, sep: string)
    requires |rest| > 0
    ensures Join([""] + rest, sep) == sep + Join(rest, sep)
  {
    assert ([""] + rest)[1..] == rest;
  }

  lemma JoinGrownFront(c: char, rest: seq<string>, sep: string)
    requires |rest| > 0
    ensures Join([[c] + rest[0]] + rest[1..], sep) == [c] + Join(rest, sep)
  {
    var pieces := [[c] + rest[0]] + rest[1..];
    assert pieces[1..] == rest[1..];
    if |rest| > 1 {
      assert Join(rest, sep) == rest[0] + sep + Join(rest[1..], sep);
    }
  }

  /** No piece between two replaced occurrences still contains the pattern. */
  lemma {:induction false} SplitOnPiecesFree(s: string, pat: string)
    requires |pat| > 0
    ensures forall p :: p in SplitOn(s, pat) ==> !Contains(p, pat)
    decreases |s|
  {
    if |s| > 0 {
      if StartsWith(s, pat) {
        SplitOnPiecesFree(s[|pat|..], pat);
        assert !Contains("", pat);
      } else {
        SplitOnPiecesFree(s[1..], pat);
        var rest := SplitOn(s[1..], pat);
        var first := [s[0]] + rest[0];
        assert first[1..] == rest[0];
        assert StartsWith(s, first) by {
          assert s[..|first|] == [s[0]] + s[1..][..|rest[0]|];
        }
        if StartsWith(first, pat) {
          StartsWithPrefix(s, first, pat);
        }
        assert !Contains(first, pat);
        assert SplitOn(s, pat) == [first] + rest[1..];
      }
    } else {
      assert !Contains("", pat);
    }
  }

  /** A text without the pattern is left unchanged by the replace. */
  lemma {:induction false} ReplaceAllAbsent(s: string, pat: string, rep: string)
    requires |pat| > 0
    requires !Contains(s, pat)
    ensures ReplaceAll(s, pat, rep) == s
    decreases |s|
  {
    if |s| > 0 {
      ReplaceAllAbsent(s[1..], pat, rep);
    }
  }

  /**
   * The lines of `text` (split on `\n`), each trimmed, with empty ones dropped:
   * `text.split('\n').map(l => l.trim()).filter(l => l.length > 0)`.
   */
  function NonBlankLines(text: string): (lines: seq<string>)
    ensures forall l :: l in lines ==> l != "" && Trimmed(l) && '\n' !in l
  {
    TrimmedNonEmptyClean(Split(text, '\n'));
    TrimmedNonEmpty(Split(text, '\n'))
  }

  predicate NoNewline(parts: seq<string>) {
    forall p :: p in parts ==> '\n' !in p
  }

  /** `parts.map(trim).filter(p => p.length > 0)`. */
  function TrimmedNonEmpty(parts: seq<string>): (r: seq<string>)
    ensures |r| <= |parts|
  {
    if |parts| == 0 then [] else KeptLine(parts[0]) + TrimmedNonEmpty(parts[1..])
  }

  /** Every kept line is non-empty and trimmed, and no line break is introduced. */
  lemma {:induction false} TrimmedNonEmptyClean(parts: seq<string>)
    ensures forall l :: l in TrimmedNonEmpty(parts) ==> l != "" && Trimmed(l)
    ensures NoNewline(parts) ==> NoNewline(TrimmedNonEmpty(parts))
    decreases |parts|
  {
    if |parts| > 0 {
      TrimmedNonEmptyClean(parts[1..]);
      if NoNewline(parts) {
        assert NoNewline(parts[1..]) by {
          forall p | p in parts[1..]
            ensures '\n' !in p
          {
            assert p in parts;
          }
        }
        assert '\n' !in parts[0];
      }
    }
  }

  /** The trimmed line as a one-element list, or nothing when it is blank. */
  function KeptLine(line: string): (r: seq<string>)
    ensures |r| <= 1
    ensures forall l :: l in r ==> l != "" && Trimmed(l)
    ensures '\n' !in line ==> NoNewline(r)
  {
    var t := Trim(line);
    if t == "" then [] else [t]
  }

  lemma {:induction false} TrimmedNonEmptyAppend(a: seq<string>, b: seq<string>)
    ensures TrimmedNonEmpty(a + b) == TrimmedNonEmpty(a) + TrimmedNonEmpty(b)
    decreases |a|
  {
    if |a| > 0 {
      TrimmedNonEmptyAppend(a[1..], b);
      TrimmedNonEmptyFront(a, b);
    } else {
      assert a + b == b;
    }
  }

  // One step of the induction: the first line of `a` is also the first line of `a + b`.
  lemma TrimmedNonEmptyFront(a: seq<string>, b: seq<string>)
    requires |a| > 0
    ensures TrimmedNonEmpty(a + b) == KeptLine(a[0]) + TrimmedNonEmpty(a[1..] + b)
    ensures TrimmedNonEmpty(a) == KeptLine(a[0]) + TrimmedNonEmpty(a[1..])
  {
    assert (a + b)[0] == a[0] && (a + b)[1..] == a[1..] + b;
  }

  /** A kept line is exactly the trimmed form of some input line that is not blank. */
  lemma {:induction false} TrimmedNonEmptyMembers(parts: seq<string>, o: string)
    ensures o in TrimmedNonEmpty(parts) <==> o != "" && exists k :: 0 <= k < |parts| && Trim(parts[k]) == o
    decreases |parts|
  {
    if |parts| > 0 {
      TrimmedNonEmptyMembers(parts[1..], o);
      if exists k :: 0 <= k < |parts[1..]| && Trim(parts[1..][k]) == o {
        var k :| 0 <= k < |parts[1..]| && Trim(parts[1..][k]) == o;
        assert Trim(parts[k + 1]) == o;
      }
      if exists k :: 0 <= k < |parts| && Trim(parts[k]) == o {
        var k :| 0 <= k < |parts| && Trim(parts[k]) == o;
        if k > 0 {
          assert Trim(parts[1..][k - 1]) == o;
        }
      }
    }
  }
}
