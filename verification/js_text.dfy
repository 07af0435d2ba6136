/** The JavaScript string built-ins the dataset text parser relies on:
    `String.prototype.trim`, `split` with a literal separator, `split` with
    the line-break pattern `/\r\n|\n/`, and `Array.prototype.join`. Strings
    are sequences of characters; UTF-16 surrogate pairs are not modelled. */
module JsText {

  import opened Wrappers

  /** WhiteSpace and LineTerminator code points of ECMAScript (the set that
      `trim` removes): TAB, VT, FF, ZWNBSP, the space separators and the four
      line terminators. */
  predicate IsWhitespace(c: char) {
    || c == '\t' || c == '\U{000B}' || c == '\U{000C}' || c == ' ' || c == '\U{00A0}'
    || c == '\U{FEFF}' || c == '\U{1680}' || ('\U{2000}' <= c <= '\U{200A}')
    || c == '\U{202F}' || c == '\U{205F}' || c == '\U{3000}'
    || c == '\n' || c == '\r' || c == '\U{2028}' || c == '\U{2029}'
  }

  predicate AllWhitespace(s: string) {
    forall i :: 0 <= i < |s| ==> IsWhitespace(s[i])
  }

  predicate NoWhitespace(s: string) {
    forall i :: 0 <= i < |s| ==> !IsWhitespace(s[i])
  }

  // ---------------------------------------------------------------- trim

  /** Number of leading whitespace characters. */
  function LeadingSpace(s: string): (k: nat)
    ensures k <= |s|
    ensures AllWhitespace(s[..k])
    ensures k < |s| ==> !IsWhitespace(s[k])
  {
    if |s| > 0 && IsWhitespace(s[0]) then 1 + LeadingSpace(s[1..]) else 0
  }

  /** Number of trailing whitespace characters. */
  function TrailingSpace(s: string): (k: nat)
    ensures k <= |s|
    ensures AllWhitespace(s[|s| - k..])
    ensures k < |s| ==> !IsWhitespace(s[|s| - k - 1])
  {
    if |s| > 0 && IsWhitespace(s[|s| - 1]) then 1 + TrailingSpace(s[..|s| - 1]) else 0
  }

  function TrimStart(s: string): string {
    s[LeadingSpace(s)..]
  }

  function TrimEnd(s: string): string {
    s[..|s| - TrailingSpace(s)]
  }

  /** `String.prototype.trim`. */
  function Trim(s: string): (t: string)
    ensures |t| > 0 ==> !IsWhitespace(t[0]) && !IsWhitespace(t[|t| - 1])
  {
    TrimEnd(TrimStart(s))
  }

  /** `trim` cuts a whitespace-only prefix and suffix off its argument and
      nothing else. */
  lemma TrimIsInfix(s: string)
    ensures exists i, j :: 0 <= i <= j <= |s| && Trim(s) == s[i..j]
                           && AllWhitespace(s[..i]) && AllWhitespace(s[j..])
  {
    var i := LeadingSpace(s);
    var u := s[i..];
    var k := TrailingSpace(u);
    var j := i + |u| - k;
    assert Trim(s) == u[..|u| - k] == s[i..j];
    assert s[j..] == u[|u| - k..];
    assert 0 <= i <= j <= |s| && Trim(s) == s[i..j] && AllWhitespace(s[..i]) && AllWhitespace(s[j..]);
  }

  /** Trimming only shortens, so a character absent before is absent after. */
  lemma TrimKeepsLacking(s: string, c: char)
    requires Lacks(s, c)
    ensures Lacks(Trim(s), c)
    ensures |Trim(s)| <= |s|
  {
    TrimIsInfix(s);
    var i, j :| 0 <= i <= j <= |s| && Trim(s) == s[i..j];
    assert forall k :: 0 <= k < j - i ==> s[i..j][k] == s[i + k];
  }

  lemma {:induction false} TrimStartOfWhitespacePrefix(a: string, x: string)
    requires AllWhitespace(a)
    ensures TrimStart(a + x) == TrimStart(x)
  {
    if |a| > 0 {
      assert (a + x)[1..] == a[1..] + x;
      TrimStartOfWhitespacePrefix(a[1..], x);
    } else {
      assert a + x == x;
    }
  }

  lemma {:induction false} TrimEndOfWhitespaceSuffix(x: string, b: string)
    requires AllWhitespace(b)
    ensures TrimEnd(x + b) == TrimEnd(x)
  {
    if |b| > 0 {
      var xb := x + b;
      assert xb[..|xb| - 1] == x + b[..|b| - 1];
      TrimEndOfWhitespaceSuffix(x, b[..|b| - 1]);
    } else {
      assert x + b == x;
    }
  }

  lemma {:induction false} TrimStartKeepsSuffix(x: string, b: string)
    requires !AllWhitespace(x)
    ensures TrimStart(x + b) == TrimStart(x) + b
  {
    if IsWhitespace(x[0]) {
      assert (x + b)[1..] == x[1..] + b;
      assert !AllWhitespace(x[1..]) by {
        var i :| 0 <= i < |x| && !IsWhitespace(x[i]);
        assert x[1..][i - 1] == x[i];
      }
      TrimStartKeepsSuffix(x[1..], b);
    }
  }

  lemma AllWhitespaceTrimsToEmpty(s: string)
    requires AllWhitespace(s)
    ensures Trim(s) == ""
  {
    TrimStartOfWhitespacePrefix(s, "");
    assert s + "" == s;
  }

  /** Whitespace around a string never survives `trim`: `trim(a + m + b)`
      equals `trim(m)` whenever `a` and `b` are whitespace. */
  lemma TrimIgnoresWhitespaceAffixes(a: string, m: string, b: string)
    requires AllWhitespace(a) && AllWhitespace(b)
    ensures Trim(a + m + b) == Trim(m)
  {
    assert a + m + b == a + (m + b);
    TrimStartOfWhitespacePrefix(a, m + b);
    if AllWhitespace(m) {
      assert AllWhitespace(m + b);
      AllWhitespaceTrimsToEmpty(m + b);
      AllWhitespaceTrimsToEmpty(m);
    } else {
      TrimStartKeepsSuffix(m, b);
      TrimEndOfWhitespaceSuffix(TrimStart(m), b);
    }
  }

  /** `trim` leaves a string whose ends are not whitespace unchanged. */
  lemma TrimOfTrimmed(s: string)
    requires |s| > 0 ==> !IsWhitespace(s[0]) && !IsWhitespace(s[|s| - 1])
    ensures Trim(s) == s
  {
  }

  /** A non-whitespace character is kept by `trim`. */
  lemma TrimKeepsNonWhitespace(s: string, i: nat)
    requires i < |s| && !IsWhitespace(s[i])
    ensures s[i] in Trim(s)
  {
    var a := LeadingSpace(s);
    var u := s[a..];
    var k := TrailingSpace(u);
    assert forall j :: 0 <= j < a ==> s[..a][j] == s[j];
    assert i >= a;
    assert u[i - a] == s[i];
    assert forall j :: |u| - k <= j < |u| ==> u[|u| - k..][j - (|u| - k)] == u[j];
    assert i - a < |u| - k;
    assert Trim(s)[i - a] == s[i];
  }

  // ------------------------------------------- split on a literal separator

  predicate OccursAt(s: string, sep: string, i: nat) {
    i + |sep| <= |s| && s[i..i + |sep|] == sep
  }

  ghost predicate Contains(s: string, sep: string) {
    exists i: nat :: OccursAt(s, sep, i)
  }

  /** The leftmost occurrence of `sep` in `s`, as `indexOf` finds it. */
  function IndexOf(s: string, sep: string): (r: Option<nat>)
    requires |sep| > 0
    ensures r.Some? ==> OccursAt(s, sep, r.value)
    ensures r.Some? ==> forall j: nat :: j < r.value ==> !OccursAt(s, sep, j)
    ensures r.None? ==> !Contains(s, sep)
  {
    if |s| < |sep| then None
    else if s[..|sep|] == sep then Some(0)
    else match IndexOf(s[1..], sep)
      case None =>
        assert !Contains(s, sep) by {
          forall j: nat ensures !OccursAt(s, sep, j) {
            if j > 0 {
              assert !OccursAt(s[1..], sep, j - 1);
              if j + |sep| <= |s| {
                assert s[1..][j - 1..j - 1 + |sep|] == s[j..j + |sep|];
              }
            }
          }
        }
        None
      case Some(k) =>
        assert s[k + 1..k + 1 + |sep|] == s[1..][k..k + |sep|];
        assert forall j: nat :: 0 < j < k + 1 ==> !OccursAt(s, sep, j) by {
          forall j: nat | 0 < j < k + 1 ensures !OccursAt(s, sep, j) {
            assert !OccursAt(s[1..], sep, j - 1);
            if j + |sep| <= |s| {
              assert s[1..][j - 1..j - 1 + |sep|] == s[j..j + |sep|];
            }
          }
        }
        Some(k + 1)
  }

  /** `String.prototype.split` with a non-empty literal separator: the pieces
      between the occurrences of `sep`, found left to right without overlap. */
  function Split(s: string, sep: string): (parts: seq<string>)
    requires |sep| > 0
    ensures |parts| >= 1
    ensures forall k :: 0 <= k < |parts| ==> !Contains(parts[k], sep)
    decreases |s|
  {
    match IndexOf(s, sep)
    case None => [s]
    case Some(i) =>
      assert !Contains(s[..i], sep) by {
        forall j: nat ensures !OccursAt(s[..i], sep, j) {
          if j + |sep| <= i {
            assert s[..i][j..j + |sep|] == s[j..j + |sep|];
            assert !OccursAt(s, sep, j);
          }
        }
      }
      [s[..i]] + Split(s[i + |sep|..], sep)
  }

  /** `Array.prototype.join` of strings with separator `sep`. */
  function Join(parts: seq<string>, sep: string): string
    requires |parts| >= 1
  {
    if |parts| == 1 then parts[0] else parts[0] + sep + Join(parts[1..], sep)
  }

  /** Joining the pieces of a split with the same separator gives back the
      original string. */
  lemma {:induction false} JoinSplit(s: string, sep: string)
    requires |sep| > 0
    ensures Join(Split(s, sep), sep) == s
    decreases |s|
  {
    var parts := Split(s, sep);
    match IndexOf(s, sep)
    case None =>
      assert parts == [s];
    case Some(i) =>
      var rest := s[i + |sep|..];
      assert parts == [s[..i]] + Split(rest, sep);
      assert parts[1..] == Split(rest, sep);
      JoinSplit(rest, sep);
      assert Join(parts, sep) == s[..i] + sep + rest;
      assert s == s[..i] + s[i..i + |sep|] + rest;
  }

  /** The first piece is a prefix of the join. */
  lemma JoinStartsWithFirst(parts: seq<string>, sep: string)
    requires |parts| >= 1
    ensures |parts[0]| <= |Join(parts, sep)| && Join(parts, sep)[..|parts[0]|] == parts[0]
  {
  }

  /** The last piece is a suffix of the join. */
  lemma {:induction false} JoinEndsWithLast(parts: seq<string>, sep: string)
    requires |parts| >= 1
    ensures var j := Join(parts, sep); var last := parts[|parts| - 1];
      |last| <= |j| && j[|j| - |last|..] == last
  {
    if |parts| > 1 {
      JoinEndsWithLast(parts[1..], sep);
      assert parts[1..][|parts| - 2] == parts[|parts| - 1];
    }
  }

  /** Characters outside `cs`. */
  predicate Avoids(s: string, cs: set<char>) {
    forall i :: 0 <= i < |s| ==> s[i] !in cs
  }

  /** A join contains no character that neither its pieces nor its separator
      contain. */
  lemma {:induction false} JoinAvoids(parts: seq<string>, sep: string, cs: set<char>)
    requires |parts| >= 1 && Avoids(sep, cs)
    requires forall k :: 0 <= k < |parts| ==> Avoids(parts[k], cs)
    ensures Avoids(Join(parts, sep), cs)
  {
    if |parts| > 1 {
      JoinAvoids(parts[1..], sep, cs);
      var rest := Join(parts[1..], sep);
      assert Join(parts, sep) == parts[0] + sep + rest;
      forall i | 0 <= i < |Join(parts, sep)| ensures Join(parts, sep)[i] !in cs {
        if i < |parts[0]| {
          assert Join(parts, sep)[i] == parts[0][i];
        } else if i < |parts[0]| + |sep| {
          assert Join(parts, sep)[i] == sep[i - |parts[0]|];
        } else {
          assert Join(parts, sep)[i] == rest[i - |parts[0]| - |sep|];
        }
      }
    }
  }

  /** A string in which the first character of `sep` never starts a window
      of `|sep|` characters does not contain `sep`. */
  lemma NoOccurrenceWithoutFirst(s: string, sep: string)
    requires |sep| > 0
    requires forall i :: 0 <= i < |s| && i + |sep| <= |s| ==> s[i] != sep[0]
    ensures !Contains(s, sep)
  {
    forall j: nat ensures !OccursAt(s, sep, j) {
      if j + |sep| <= |s| {
        assert s[j..j + |sep|][0] == s[j];
      }
    }
  }

  /** A separator none of whose proper suffixes is also a prefix: one
      occurrence can then only start where the previous one ended. */
  predicate Unbordered(sep: string) {
    forall j :: 0 < j < |sep| ==> sep[j..] != sep[..|sep| - j]
  }

  lemma IndexOfAfterPiece(p: string, sep: string, rest: string)
    requires |sep| > 0 && Unbordered(sep) && !Contains(p, sep)
    ensures IndexOf(p + sep + rest, sep) == Some(|p|)
  {
    var s := p + sep + rest;
    assert OccursAt(s, sep, |p|) by { assert s[|p|..|p| + |sep|] == sep; }
    assert Contains(s, sep);
    forall j: nat | j < |p| ensures !OccursAt(s, sep, j) {
      if j + |sep| <= |p| {
        assert s[j..j + |sep|] == p[j..j + |sep|];
        assert !OccursAt(p, sep, j);
      } else {
        var d := |p| - j;
        assert s[j..j + |sep|][d..] == s[|p|..j + |sep|];
        assert s[|p|..j + |sep|] == sep[..|sep| - d];
        assert sep[d..] != sep[..|sep| - d];
        assert s[j..j + |sep|][d..] != sep[d..];
      }
    }
  }

  /** Splitting a join gives back the pieces, provided no piece contains the
      separator and the separator cannot overlap itself. */
  lemma {:induction false} SplitJoin(parts: seq<string>, sep: string)
    requires |parts| >= 1 && |sep| > 0 && Unbordered(sep)
    requires forall k :: 0 <= k < |parts| ==> !Contains(parts[k], sep)
    ensures Split(Join(parts, sep), sep) == parts
  {
    if |parts| > 1 {
      SplitJoinStep(parts, sep);
      SplitJoin(parts[1..], sep);
      assert parts == [parts[0]] + parts[1..];
    }
  }

  /** Splitting a join of several pieces cuts off the first piece. */
  lemma SplitJoinStep(parts: seq<string>, sep: string)
    requires |parts| > 1 && |sep| > 0 && Unbordered(sep) && !Contains(parts[0], sep)
    ensures Split(Join(parts, sep), sep) == [parts[0]] + Split(Join(parts[1..], sep), sep)
  {
    var rest := Join(parts[1..], sep);
    IndexOfAfterPiece(parts[0], sep, rest);
    var s := parts[0] + sep + rest;
    assert Join(parts, sep) == s;
    assert s[|parts[0]| + |sep|..] == rest;
    assert s[..|parts[0]|] == parts[0];
  }

  // ------------------------------------------------ split on /\r\n|\n/

  predicate Lacks(s: string, c: char) {
    forall i :: 0 <= i < |s| ==> s[i] != c
  }

  /** Position and width of the leftmost match of `/\r\n|\n/`. */
  function LineBreak(s: string): (r: Option<(nat, nat)>)
    ensures r.Some? ==> r.value.0 + r.value.1 <= |s|
    ensures r.Some? ==> s[r.value.0..r.value.0 + r.value.1] in ["\n", "\r\n"]
    ensures r.Some? ==> Lacks(s[..r.value.0], '\n')
    ensures r.None? ==> Lacks(s, '\n')
  {
    var r := LineBreakFrom(s, 0);
    if r.Some? then
      var (i, w) := r.value;
      assert forall j :: 0 <= j < i ==> s[..i][j] == s[j];
      if w == 1 then assert s[i..i + w] == "\n"; r
      else assert s[i..i + w] == "\r\n"; r
    else r
  }

  /** The leftmost match at or after `i`, found character by character. */
  function LineBreakFrom(s: string, i: nat): (r: Option<(nat, nat)>)
    requires i <= |s|
    ensures r.Some? ==> i <= r.value.0 && r.value.0 + r.value.1 <= |s|
    ensures r.Some? ==>
      (r.value.1 == 1 && s[r.value.0] == '\n') || (r.value.1 == 2 && s[r.value.0] == '\r' && s[r.value.0 + 1] == '\n')
    ensures r.Some? ==> forall j :: i <= j < r.value.0 ==> s[j] != '\n'
    ensures r.None? ==> forall j :: i <= j < |s| ==> s[j] != '\n'
    decreases |s| - i
  {
    if i == |s| then None
    else if s[i] == '\n' then Some((i, 1))
    else if i + 1 < |s| && s[i] == '\r' && s[i + 1] == '\n' then Some((i, 2))
    else LineBreakFrom(s, i + 1)
  }

  /** `s.split(/\r\n|\n/)`. */
  function SplitLines(s: string): (lines: seq<string>)
    ensures |lines| >= 1
    ensures forall k :: 0 <= k < |lines| ==> Lacks(lines[k], '\n')
    decreases |s|
  {
    match LineBreak(s)
    case None => [s]
    case Some((i, w)) => [s[..i]] + SplitLines(s[i + w..])
  }

  function CountOf(s: string, c: char): nat {
    if |s| == 0 then 0 else (if s[0] == c then 1 else 0) + CountOf(s[1..], c)
  }

  lemma {:induction false} CountOfAppend(a: string, b: string, c: char)
    ensures CountOf(a + b, c) == CountOf(a, c) + CountOf(b, c)
  {
    if |a| > 0 {
      assert (a + b)[1..] == a[1..] + b;
      CountOfAppend(a[1..], b, c);
    } else {
      assert a + b == b;
    }
  }

  lemma {:induction false} CountOfLacking(s: string, c: char)
    requires Lacks(s, c)
    ensures CountOf(s, c) == 0
  {
    if |s| > 0 {
      CountOfLacking(s[1..], c);
    }
  }

  /** Every line feed, alone or after a carriage return, ends exactly one
      line: the split yields one more line than the text has line feeds. */
  lemma {:induction false} SplitLinesCount(s: string)
    ensures |SplitLines(s)| == CountOf(s, '\n') + 1
    decreases |s|
  {
    match LineBreak(s)
    case None => CountOfLacking(s, '\n');
    case Some((i, w)) =>
      SplitLinesCount(s[i + w..]);
      assert s == s[..i] + s[i..i + w] + s[i + w..];
      CountOfAppend(s[..i] + s[i..i + w], s[i + w..], '\n');
      CountOfAppend(s[..i], s[i..i + w], '\n');
      CountOfLacking(s[..i], '\n');
      assert CountOf("\n", '\n') == 1;
      assert CountOf("\r\n", '\n') == 1 by { assert "\r\n"[1..] == "\n"; }
  }

  /** Without carriage returns, splitting on the line-break pattern is the
      same as splitting on a line feed. */
  lemma {:induction false} SplitLinesWithoutCarriageReturn(s: string)
    requires Lacks(s, '\r')
    ensures SplitLines(s) == Split(s, "\n")
    decreases |s|
  {
    match LineBreak(s)
    case None => NoLineFeedNoOccurrence(s);
    case Some((i, w)) =>
      FirstLineFeed(s, i, w);
      SplitLinesWithoutCarriageReturn(s[i + w..]);
  }

  lemma NoLineFeedNoOccurrence(s: string)
    requires Lacks(s, '\n')
    ensures !Contains(s, "\n")
  {
    forall j: nat ensures !OccursAt(s, "\n", j) {
      if j < |s| { assert s[j..j + 1][0] == s[j]; }
    }
  }

  /** Without carriage returns the line-break match is the first line feed. */
  lemma FirstLineFeed(s: string, i: nat, w: nat)
    requires Lacks(s, '\r') && LineBreak(s) == Some((i, w))
    ensures w == 1 && IndexOf(s, "\n") == Some(i)
  {
    assert s[i..i + w][0] == s[i];
    assert s[i..i + w] == "\n";
    assert OccursAt(s, "\n", i);
    forall j: nat | j < i ensures !OccursAt(s, "\n", j) {
      assert s[j..j + 1][0] == s[j];
      assert s[..i][j] == s[j];
    }
  }
}
