/**
 * `debug_quotes.py`: the scan that lists every single quote of a source text
 * with its 1-based line and column, as Python's `str.count` and `str.rfind`
 * compute them.
 */
module QuotePositions {
  import opened Strings

  /** `s.rfind(c)`: the last index holding `c`, or -1. */
  function LastIndex(s: string, c: char): (i: int)
    ensures -1 <= i < |s|
    ensures i >= 0 ==> s[i] == c
    ensures forall j :: i < j < |s| ==> s[j] != c
  {
    if |s| == 0 then -1
    else if s[|s| - 1] == c then |s| - 1
    else LastIndex(s[..|s| - 1], c)
  }

  /** `s.count(c)`: how many characters of `s` are `c`. */
  function CountChar(s: string, c: char): (n: nat)
    ensures n <= |s|
    ensures n == 0 <==> c !in s
  {
    if |s| == 0 then 0
    else CountChar(s[..|s| - 1], c) + (if s[|s| - 1] == c then 1 else 0)
  }

  /** `(line_no, col_no, char)`. */
  datatype Quote = Quote(line: int, col: int, ch: char)

  /** The entry for index `i`: one more than the newlines before it, and the distance from the last of them. */
  function Position(content: string, i: int): (q: Quote)
    requires 0 <= i < |content|
    ensures q.line >= 1 && q.col >= 1
  {
    Quote(CountChar(content[..i], '\n') + 1, i - LastIndex(content[..i], '\n'), content[i])
  }

  /** The entries for the quotes among the first `n` characters, in index order. */
  function QuotesBefore(content: string, n: int): seq<Quote>
    requires 0 <= n <= |content|
  {
    if n == 0 then []
    else QuotesBefore(content, n - 1) + (if content[n - 1] == '\'' then [Position(content, n - 1)] else [])
  }

  /** The loop: one entry appended for each `'`, scanning left to right. */
  method FindQuotes(content: string) returns (quotes: seq<Quote>)
    ensures quotes == QuotesBefore(content, |content|)
    ensures |quotes| == CountChar(content, '\'')
  {
    quotes := [];
    var i := 0;
    while i < |content|
      invariant 0 <= i <= |content|
      invariant quotes == QuotesBefore(content, i)
    {
      if content[i] == '\'' {
        var lineNo := CountChar(content[..i], '\n') + 1;
        var lastNewline := LastIndex(content[..i], '\n');
        var colNo := i - lastNewline;
        quotes := quotes + [Quote(lineNo, colNo, content[i])];
      }
      i := i + 1;
    }
    QuoteCount(content, |content|);
    assert content[..|content|] == content;
  }

  /** One entry per quote character: the total the script prints. */
  lemma {:induction false} QuoteCount(content: string, n: int)
    requires 0 <= n <= |content|
    ensures |QuotesBefore(content, n)| == CountChar(content[..n], '\'')
  {
    if n > 0 {
      QuoteCount(content, n - 1);
      assert content[..n][..n - 1] == content[..n - 1];
    }
  }

  /** The entries are exactly the positions of the quote characters. */
  lemma {:induction false} QuoteMembers(content: string, n: int, q: Quote)
    requires 0 <= n <= |content|
    ensures q in QuotesBefore(content, n) <==>
            exists i :: 0 <= i < n && content[i] == '\'' && q == Position(content, i)
  {
    if n > 0 {
      QuoteMembers(content, n - 1, q);
    }
  }

  // Python's `count` and `rfind` work from the end; `split` works from the front.

  lemma {:induction false} CountCons(x: char, t: string, c: char)
    ensures CountChar([x] + t, c) == (if x == c then 1 else 0) + CountChar(t, c)
    decreases |t|
  {
    if |t| > 0 {
      CountCons(x, t[..|t| - 1], c);
      assert ([x] + t)[..|t|] == [x] + t[..|t| - 1];
    }
  }

  lemma {:induction false} LastCons(x: char, t: string, c: char)
    ensures LastIndex([x] + t, c) ==
            if LastIndex(t, c) >= 0 then LastIndex(t, c) + 1 else if x == c then 0 else -1
    decreases |t|
  {
    if |t| > 0 {
      LastCons(x, t[..|t| - 1], c);
      assert ([x] + t)[..|t|] == [x] + t[..|t| - 1];
    }
  }

  /** Piece `line` of `parts` holds `c` at index `col`. */
  predicate Locates(parts: seq<string>, line: int, col: int, c: char) {
    0 <= line < |parts| && 0 <= col < |parts[line]| && parts[line][col] == c
  }

  /**
   * A character other than the separator sits in piece number
   * `CountChar(s[..i], sep)` of `split(sep)`, at the index after the last
   * separator before it.
   */
  lemma {:induction false} SplitPosition(s: string, i: int, sep: char)
    requires 0 <= i < |s| && s[i] != sep
    ensures Locates(Split(s, sep), CountChar(s[..i], sep), i - LastIndex(s[..i], sep) - 1, s[i])
    decreases |s|
  {
    if i == 0 {
      SplitFront(s, sep);
      assert s[..0] == [];
      PieceStart(Split(s, sep), Split(s[1..], sep), s[0], sep);
    } else {
      SplitPosition(s[1..], i - 1, sep);
      assert s[1..][i - 1] == s[i];
      SplitPositionStep(s, i, sep);
    }
  }

  /** The position of index `i` in `s` follows from its position in `s[1..]`. */
  lemma SplitPositionStep(s: string, i: int, sep: char)
    requires 0 < i < |s| && s[i] != sep
    requires var t := s[1..][..i - 1];
             Locates(Split(s[1..], sep), CountChar(t, sep), i - 1 - LastIndex(t, sep) - 1, s[i])
    ensures Locates(Split(s, sep), CountChar(s[..i], sep), i - LastIndex(s[..i], sep) - 1, s[i])
  {
    var t := s[1..][..i - 1];
    var line', col' := CountChar(t, sep), i - 1 - LastIndex(t, sep) - 1;
    var line, col := CountChar(s[..i], sep), i - LastIndex(s[..i], sep) - 1;
    var parts, rest := Split(s, sep), Split(s[1..], sep);
    SplitFront(s, sep);
    PositionShift(s, i, sep);
    PieceStep(parts, rest, s[0], sep, line', col', line, col, s[i]);
  }

  /** Putting `s[0]` in front of `s[1..i]` moves the line and column of index `i` like this. */
  lemma PositionShift(s: string, i: int, sep: char)
    requires 0 < i < |s|
    ensures var t := s[1..][..i - 1];
            var col' := i - 1 - LastIndex(t, sep) - 1;
            && CountChar(s[..i], sep) == (if s[0] == sep then 1 else 0) + CountChar(t, sep)
            && i - LastIndex(s[..i], sep) - 1 == if s[0] != sep && CountChar(t, sep) == 0 then col' + 1 else col'
  {
    var t := s[1..][..i - 1];
    assert s[..i] == [s[0]] + t;
    CountCons(s[0], t, sep);
    LastCons(s[0], t, sep);
    if LastIndex(t, sep) >= 0 {
      assert sep in t;
    }
  }

  // How the pieces of `split` shift when one character is put in front.

  lemma SplitFront(s: string, sep: char)
    requires |s| > 0
    ensures var rest := Split(s[1..], sep);
            Split(s, sep) == if s[0] == sep then [""] + rest else [[s[0]] + rest[0]] + rest[1..]
  {
  }

  lemma PieceStart(parts: seq<string>, rest: seq<string>, x: char, sep: char)
    requires |rest| > 0 && x != sep
    requires parts == if x == sep then [""] + rest else [[x] + rest[0]] + rest[1..]
    ensures Locates(parts, 0, 0, x)
  {
  }

  lemma PieceStep(parts: seq<string>, rest: seq<string>, x: char, sep: char,
                  line': int, col': int, line: int, col: int, c: char)
    requires |rest| > 0
    requires parts == if x == sep then [""] + rest else [[x] + rest[0]] + rest[1..]
    requires Locates(rest, line', col', c)
    requires line == (if x == sep then 1 else 0) + line'
    requires col == if x != sep && line' == 0 then col' + 1 else col'
    ensures Locates(parts, line, col, c)
  {
    if x == sep {
      PieceAfterSeparator(parts, rest, line', col', c);
    } else if line' == 0 {
      PieceGrown(parts, rest, x, col', c);
    } else {
      PieceKept(parts, rest, x, line', col', c);
    }
  }

  lemma PieceAfterSeparator(parts: seq<string>, rest: seq<string>, k: int, col: int, c: char)
    requires parts == [""] + rest
    requires 0 <= k < |rest| && 0 <= col < |rest[k]| && rest[k][col] == c
    ensures k + 1 < |parts| && col < |parts[k + 1]| && parts[k + 1][col] == c
  {
    assert parts[k + 1] == rest[k];
  }

  lemma PieceGrown(parts: seq<string>, rest: seq<string>, x: char, col: int, c: char)
    requires |rest| > 0 && parts == [[x] + rest[0]] + rest[1..]
    requires 0 <= col < |rest[0]| && rest[0][col] == c
    ensures |parts| > 0 && col + 1 < |parts[0]| && parts[0][col + 1] == c
  {
    assert parts[0] == [x] + rest[0];
  }

  lemma PieceKept(parts: seq<string>, rest: seq<string>, x: char, k: int, col: int, c: char)
    requires |rest| > 0 && parts == [[x] + rest[0]] + rest[1..]
    requires 0 < k < |rest| && 0 <= col < |rest[k]| && rest[k][col] == c
    ensures k < |parts| && col < |parts[k]| && parts[k][col] == c
  {
    assert parts[k] == rest[k];
  }

  /** Line first, then column. */
  predicate Before(a: Quote, b: Quote) {
    a.line < b.line || (a.line == b.line && a.col < b.col)
  }

  lemma PositionStep(content: string, i: int)
    requires 0 < i < |content|
    ensures Before(Position(content, i - 1), Position(content, i))
  {
    assert content[..i][..i - 1] == content[..i - 1];
  }

  lemma {:induction false} PositionOrder(content: string, i: int, j: int)
    requires 0 <= i < j < |content|
    ensures Before(Position(content, i), Position(content, j))
    decreases j - i
  {
    PositionStep(content, j);
    if i < j - 1 {
      PositionOrder(content, i, j - 1);
    }
  }

  /** The entries come out in strictly increasing (line, column) order. */
  lemma {:induction false} QuotesOrdered(content: string, n: int)
    requires 0 <= n <= |content|
    ensures var qs := QuotesBefore(content, n);
            forall j, k :: 0 <= j < k < |qs| ==> Before(qs[j], qs[k])
  {
    if n > 0 {
      QuotesOrdered(content, n - 1);
      var prev := QuotesBefore(content, n - 1);
      if content[n - 1] == '\'' {
        forall j | 0 <= j < |prev|
          ensures Before(prev[j], Position(content, n - 1))
        {
          QuoteMembers(content, n - 1, prev[j]);
          var i :| 0 <= i < n - 1 && content[i] == '\'' && prev[j] == Position(content, i);
          PositionOrder(content, i, n - 1);
        }
      }
    }
  }

  /** Every entry found is a quote, and its line and column locate it in the text's lines. */
  lemma QuotesLocated(content: string, q: Quote)
    requires q in QuotesBefore(content, |content|)
    ensures q.ch == '\'' && q.line >= 1 && q.col >= 1
    ensures Locates(Split(content, '\n'), q.line - 1, q.col - 1, '\'')
  {
    var i := QuoteIndex(content, |content|, q);
    LocatedBy(content, i, '\n', q);
  }

  /** A line and column counted against `sep` locate the character among the pieces of `split(sep)`. */
  lemma LocatedBy(content: string, i: int, sep: char, q: Quote)
    requires 0 <= i < |content| && content[i] != sep
    requires q == Quote(CountChar(content[..i], sep) + 1, i - LastIndex(content[..i], sep), content[i])
    ensures Locates(Split(content, sep), q.line - 1, q.col - 1, q.ch)
  {
    SplitPosition(content, i, sep);
  }

  /** The index of the quote an entry was recorded for. */
  lemma {:induction false} QuoteIndex(content: string, n: int, q: Quote) returns (i: int)
    requires 0 <= n <= |content|
    requires q in QuotesBefore(content, n)
    ensures 0 <= i < n && content[i] == '\'' && q == Position(content, i)
  {
    var prev := QuotesBefore(content, n - 1);
    if q in prev {
      i := QuoteIndex(content, n - 1, q);
    } else {
      i := n - 1;
    }
  }
}
