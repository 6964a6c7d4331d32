/**
 * `slugifyFieldName` of the builder page: the field-name normaliser.
 */
module Slug {
  import opened Strings

  const MaxSlugLength := 48

  /** The characters a field name may hold: `[a-z0-9_]`. */
  predicate SlugChar(c: char) {
    'a' <= c <= 'z' || '0' <= c <= '9' || c == '_'
  }

  predicate IsSlug(s: string) {
    forall c :: c in s ==> SlugChar(c)
  }

  /** A character the first replace keeps. */
  predicate Kept(c: char) {
    SlugChar(c) || c == ' '
  }

  /** `.replace(/[^a-z0-9_ ]/g, "")`: exactly the slug characters and spaces are kept, in order. */
  function KeepSlugChars(s: string): (r: string)
    ensures forall c :: c in r <==> c in s && Kept(c)
    ensures |r| <= |s|
    ensures |s| == 1 ==> r == if Kept(s[0]) then s else ""
    ensures (forall c :: c in s ==> Kept(c)) ==> r == s
    decreases |s|
  {
    if |s| == 0 then ""
    else
      var rest := KeepSlugChars(s[1..]);
      assert forall c :: c in s <==> c == s[0] || c in s[1..];
      if Kept(s[0]) then
        assert [s[0]] + s[1..] == s;
        [s[0]] + rest
      else rest
  }

  /**
   * The filter works character by character: what it keeps of `a + b` is
   * what it keeps of `a` followed by what it keeps of `b`. With the
   * one-character case of `KeepSlugChars` this fixes the order and the
   * multiplicity of the kept characters.
   */
  lemma {:induction false} KeepSlugCharsAppend(a: string, b: string)
    ensures KeepSlugChars(a + b) == KeepSlugChars(a) + KeepSlugChars(b)
    decreases |a|
  {
    if |a| == 0 {
      assert a + b == b;
    } else {
      assert (a + b)[0] == a[0];
      DropAppend(a, b, 1);
      KeepSlugCharsAppend(a[1..], b);
    }
  }

  /** `.replace(/\s+/g, "_")`: each maximal run of whitespace becomes one underscore. */
  function UnderscoreSpaces(s: string): (r: string)
    ensures forall c :: c in r ==> c == '_' || (c in s && !IsSpace(c))
    ensures |r| <= |s|
    ensures (forall c :: c in s ==> !IsSpace(c)) ==> r == s
    ensures |s| > 0 && AllSpace(s) ==> r == "_"
    decreases |s|
  {
    if |s| == 0 then ""
    else if IsSpace(s[0]) then
      var n := LeadingSpace(s);
      assert forall c :: c in s[n..] ==> c in s;
      "_" + UnderscoreSpaces(s[n..])
    else
      assert forall c :: c in s[1..] ==> c in s;
      assert [s[0]] + s[1..] == s;
      [s[0]] + UnderscoreSpaces(s[1..])
  }

  /** `a + b` is cut between two runs: one side is empty, or one of the two characters at the cut is not whitespace. */
  predicate CutOutsideRun(a: string, b: string) {
    |a| == 0 || |b| == 0 || !IsSpace(a[|a| - 1]) || !IsSpace(b[0])
  }

  /**
   * The replace works run by run: where the cut does not fall inside a run of
   * whitespace, the result for `a + b` is the result for `a` followed by the
   * result for `b`. With the ensures of `UnderscoreSpaces` for a string with
   * no whitespace (kept as is) and for a run of whitespace (one `_`), this
   * fixes the result of every string, which splits into such pieces.
   */
  lemma {:induction false} UnderscoreSpacesAppend(a: string, b: string)
    requires CutOutsideRun(a, b)
    ensures UnderscoreSpaces(a + b) == UnderscoreSpaces(a) + UnderscoreSpaces(b)
    decreases |a|
  {
    if |a| == 0 {
      assert a + b == b;
    } else if !IsSpace(a[0]) {
      if |a| > 1 {
        assert a[1..][|a[1..]| - 1] == a[|a| - 1];
      }
      UnderscoreSpacesAppend(a[1..], b);
      KeptFrontAppend(a, b);
    } else if LeadingSpace(a) < |a| {
      var m := LeadingSpace(a);
      assert a[m..][|a[m..]| - 1] == a[|a| - 1];
      UnderscoreSpacesAppend(a[m..], b);
      RunFrontJoined(a, b);
      RunFront(a);
      Regroup("_", UnderscoreSpaces(a[m..]), UnderscoreSpaces(b));
    } else {
      RunThenCut(a, b);
    }
  }

  /** Dropping a prefix of `a` from `a + b`. */
  lemma DropAppend(a: string, b: string, m: nat)
    requires m <= |a|
    ensures (a + b)[m..] == a[m..] + b
  {
  }

  /** `(p + x) + y == p + (x + y)`, stated apart from the strings it is used on. */
  lemma Regroup(p: string, x: string, y: string)
    ensures (p + x) + y == p + (x + y)
  {
  }

  lemma KeptFrontAppend(a: string, b: string)
    requires |a| > 0 && !IsSpace(a[0])
    requires UnderscoreSpaces(a[1..] + b) == UnderscoreSpaces(a[1..]) + UnderscoreSpaces(b)
    ensures UnderscoreSpaces(a + b) == UnderscoreSpaces(a) + UnderscoreSpaces(b)
  {
    KeptFrontJoined(a, b);
    KeptFront(a);
    Regroup([a[0]], UnderscoreSpaces(a[1..]), UnderscoreSpaces(b));
  }

  lemma KeptFrontJoined(a: string, b: string)
    requires |a| > 0 && !IsSpace(a[0])
    requires UnderscoreSpaces(a[1..] + b) == UnderscoreSpaces(a[1..]) + UnderscoreSpaces(b)
    ensures UnderscoreSpaces(a + b) == [a[0]] + (UnderscoreSpaces(a[1..]) + UnderscoreSpaces(b))
  {
    DropAppend(a, b, 1);
    KeptFront(a + b);
  }

  lemma RunFrontJoined(a: string, b: string)
    requires |a| > 0 && IsSpace(a[0]) && LeadingSpace(a) < |a|
    ensures UnderscoreSpaces(a + b) == "_" + UnderscoreSpaces(a[LeadingSpace(a)..] + b)
  {
    LeadingSpaceAppend(a, b);
    DropAppend(a, b, LeadingSpace(a));
    assert (a + b)[0] == a[0];
    RunFront(a + b);
  }

  lemma RunThenCut(a: string, b: string)
    requires |a| > 0 && LeadingSpace(a) == |a| && CutOutsideRun(a, b)
    ensures UnderscoreSpaces(a + b) == UnderscoreSpaces(a) + UnderscoreSpaces(b)
  {
    LeadingSpaceAppend(a, b);
    assert a[..|a|] == a;
    assert IsSpace(a[|a| - 1]);
    assert LeadingSpace(b) == 0;
    DropAppend(a, b, |a|);
    assert (a + b)[0] == a[0] && a[|a|..] == "";
    RunFront(a + b);
    RunFront(a);
  }

  /** A character that is not whitespace is copied. */
  lemma KeptFront(s: string)
    requires |s| > 0 && !IsSpace(s[0])
    ensures UnderscoreSpaces(s) == [s[0]] + UnderscoreSpaces(s[1..])
  {
  }

  /** A run of whitespace at the front becomes one underscore. */
  lemma RunFront(s: string)
    requires |s| > 0 && IsSpace(s[0])
    ensures UnderscoreSpaces(s) == "_" + UnderscoreSpaces(s[LeadingSpace(s)..])
  {
  }

  /** `s.slice(0, n)`: the first `n` characters, or all of them when there are fewer. */
  function Take(s: string, n: nat): (r: string)
    ensures |r| == if |s| <= n then |s| else n
    ensures r == s[..|r|]
    ensures forall c :: c in r ==> c in s
  {
    if |s| <= n then s else s[..n]
  }

  /** `s.trim().toLowerCase().replace(/[^a-z0-9_ ]/g, "").replace(/\s+/g, "_").slice(0, 48)`. */
  function Slugify(s: string): (r: string)
    ensures IsSlug(r)
    ensures |r| <= MaxSlugLength
  {
    var kept := KeepSlugChars(ToLower(Trim(s)));
    Take(UnderscoreSpaces(kept), MaxSlugLength)
  }

  /** A slug that fits the length limit is its own slug. */
  lemma SlugifyKeepsSlugs(s: string)
    requires IsSlug(s) && |s| <= MaxSlugLength
    ensures Slugify(s) == s
  {
    assert forall c :: c in s ==> !IsSpace(c);
    assert Trimmed(s) by {
      if |s| > 0 {
        assert s[0] in s && s[|s| - 1] in s;
      }
    }
    assert ToLower(s) == s by {
      forall i | 0 <= i < |s|
        ensures ToLower(s)[i] == s[i]
      {
        assert s[i] in s;
      }
    }
  }

  /** `slugify(slugify(s)) == slugify(s)`. */
  lemma SlugifyIdempotent(s: string)
    ensures Slugify(Slugify(s)) == Slugify(s)
  {
    SlugifyKeepsSlugs(Slugify(s));
  }
}
