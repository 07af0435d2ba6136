/** `createDataset(text, name)` of the documentation's `vtl-dataset`
    directive: it turns an inline dataset written as text, a header line of
    `name[I|M|A,String|Number]` cells separated by `],` followed by one line
    of comma-separated values per row, into `{name, structure, data}`. */
module DatasetText {

  import opened Wrappers
  import JsText
  import JsNumber
  import opened Roles

  /** One structure entry; `typeName` is `"java.lang."` followed by the type
      word of the header cell. */
  datatype Column = Column(name: string, role: Role, typeName: string)

  /** The object `createDataset` returns; rows stay unconverted strings. */
  datatype TextDataset = TextDataset(name: string, structure: seq<Column>, data: seq<seq<string>>)

  /** The three ways `createDataset` throws. The indexes say which header
      cell or data row was at fault; the thrown JavaScript values carry only
      a message. */
  datatype ParseError =
    | NoHeaderFound
    | HeaderCellUnmatched(cell: nat)
    | RowSizeInconsistent(row: nat)
  {
    /** The message of the thrown value; a header cell the column pattern
        does not match makes `cell.length` read a property of `null`, which
        the engine reports as a TypeError of its own wording. */
    function Message(): string {
      match this
      case NoHeaderFound => "no header found"
      case HeaderCellUnmatched(_) => "TypeError"
      case RowSizeInconsistent(_) => "row size inconsistent with header"
    }
  }

  // ------------------------------------------------------- text cleaning

  predicate IsBreak(c: char) { c == '\r' || c == '\n' }

  /** End of the run of CR/LF characters starting at `i`. */
  function BreaksFrom(s: string, i: nat): (k: nat)
    requires i <= |s|
    ensures i <= k <= |s|
    ensures forall j :: i <= j < k ==> IsBreak(s[j])
    ensures k < |s| ==> !IsBreak(s[k])
    decreases |s| - i
  {
    if i < |s| && IsBreak(s[i]) then BreaksFrom(s, i + 1) else i
  }

  /** Start of the run of CR/LF characters ending at `j`. */
  function BreaksBefore(s: string, j: nat): (k: nat)
    requires j <= |s|
    ensures k <= j
    ensures forall i :: k <= i < j ==> IsBreak(s[i])
    ensures k > 0 ==> !IsBreak(s[k - 1])
  {
    if j > 0 && IsBreak(s[j - 1]) then BreaksBefore(s, j - 1) else j
  }

  /** Length of the run of CR/LF characters `^[\r\n]+` matches. */
  function LeadingBreaks(s: string): (k: nat)
    ensures k <= |s|
    ensures forall i :: 0 <= i < k ==> IsBreak(s[i])
    ensures k < |s| ==> !IsBreak(s[k])
  {
    BreaksFrom(s, 0)
  }

  /** Length of the run of CR/LF characters `[\r\n]+$` matches. */
  function TrailingBreaks(s: string): (k: nat)
    ensures k <= |s|
    ensures forall i :: |s| - k <= i < |s| ==> IsBreak(s[i])
    ensures k < |s| ==> !IsBreak(s[|s| - k - 1])
  {
    |s| - BreaksBefore(s, |s|)
  }

  function DotsToSpaces(s: string): (r: string)
    ensures |r| == |s|
    ensures forall i :: 0 <= i < |s| ==> r[i] == if s[i] == '.' then ' ' else s[i]
  {
    seq(|s|, i requires 0 <= i < |s| => if s[i] == '.' then ' ' else s[i])
  }

  /** `text.replace(/^[\r\n]+|\.|[\r\n]+$/g, ' ')`: the leading run of line
      breaks, every dot, and the trailing run of line breaks each become one
      space. A text made only of line breaks is one leading match. */
  function ReplaceBreaksAndDots(s: string): (r: string)
    ensures JsText.Lacks(r, '.')
    ensures |r| <= |s|
    ensures |s| > 0 && !IsBreak(s[0]) && !IsBreak(s[|s| - 1]) ==> r == DotsToSpaces(s)
  {
    var lead := LeadingBreaks(s);
    if lead == |s| then (if lead == 0 then "" else " ")
    else
      var trail := TrailingBreaks(s);
      assert lead < |s| - trail;
      SpaceIf(lead > 0) + DotsToSpaces(s[lead..|s| - trail]) + SpaceIf(trail > 0)
  }

  /** The single space a non-empty match is replaced by. */
  function SpaceIf(matched: bool): (r: string)
    ensures JsText.AllWhitespace(r)
  {
    if matched then " " else ""
  }

  /** The cleaned text `createDataset` splits into lines. */
  function CleanText(s: string): (r: string)
    ensures JsText.Lacks(r, '.')
    ensures |r| <= |s|
    ensures |r| > 0 ==> !JsText.IsWhitespace(r[0]) && !JsText.IsWhitespace(r[|r| - 1])
  {
    var replaced := ReplaceBreaksAndDots(s);
    JsText.TrimKeepsLacking(replaced, '.');
    JsText.Trim(replaced)
  }

  lemma DotsToSpacesConcat(x: string, y: string)
    ensures DotsToSpaces(x + y) == DotsToSpaces(x) + DotsToSpaces(y)
  {
  }

  lemma DotsToSpacesOfBreaks(x: string)
    requires forall i :: 0 <= i < |x| ==> IsBreak(x[i])
    ensures DotsToSpaces(x) == x
    ensures JsText.AllWhitespace(x)
  {
  }

  /** The break-run alternatives of the cleaning pattern are subsumed by
      `trim`: cleaning is turning dots into spaces and trimming. */
  lemma CleanTextIsTrimmedDotsToSpaces(s: string)
    ensures CleanText(s) == JsText.Trim(DotsToSpaces(s))
  {
    if LeadingBreaks(s) == |s| {
      CleanAllBreaks(s);
    } else {
      CleanWithContent(s);
    }
  }

  lemma CleanAllBreaks(s: string)
    requires LeadingBreaks(s) == |s|
    ensures CleanText(s) == JsText.Trim(DotsToSpaces(s))
  {
    DotsToSpacesOfBreaks(s);
    JsText.AllWhitespaceTrimsToEmpty(s);
    JsText.AllWhitespaceTrimsToEmpty(ReplaceBreaksAndDots(s));
  }

  lemma ReplaceUnfold(s: string)
    requires LeadingBreaks(s) < |s|
    ensures LeadingBreaks(s) <= |s| - TrailingBreaks(s)
    ensures ReplaceBreaksAndDots(s) == SpaceIf(LeadingBreaks(s) > 0)
      + DotsToSpaces(s[LeadingBreaks(s)..|s| - TrailingBreaks(s)]) + SpaceIf(TrailingBreaks(s) > 0)
  {
  }

  lemma SplitThree(s: string, i: nat, j: nat)
    requires i <= j <= |s|
    ensures s == s[..i] + s[i..j] + s[j..]
  {
  }

  lemma CleanWithContent(s: string)
    requires LeadingBreaks(s) < |s|
    ensures CleanText(s) == JsText.Trim(DotsToSpaces(s))
  {
    var lead := LeadingBreaks(s);
    var trail := TrailingBreaks(s);
    CleanIsTrimmedMiddle(s, lead, trail);
    DotsOfBreakAffixes(s, lead, trail);
  }

  /** Cleaning a text with content trims the part between the break runs,
      dots turned to spaces. */
  lemma CleanIsTrimmedMiddle(s: string, lead: nat, trail: nat)
    requires lead == LeadingBreaks(s) < |s| && trail == TrailingBreaks(s)
    ensures lead <= |s| - trail
    ensures CleanText(s) == JsText.Trim(DotsToSpaces(s[lead..|s| - trail]))
  {
    ReplaceUnfold(s);
    var mid := DotsToSpaces(s[lead..|s| - trail]);
    var a, b := SpaceIf(lead > 0), SpaceIf(trail > 0);
    var replaced := ReplaceBreaksAndDots(s);
    assert replaced == a + mid + b;
    assert CleanText(s) == JsText.Trim(replaced);
    JsText.TrimIgnoresWhitespaceAffixes(a, mid, b);
  }

  /** Dots turned to spaces in the whole text, trimmed, are those of the
      part between the leading and trailing break runs, trimmed. */
  lemma DotsOfBreakAffixes(s: string, lead: nat, trail: nat)
    requires lead == LeadingBreaks(s) && trail == TrailingBreaks(s) && lead <= |s| - trail
    ensures JsText.Trim(DotsToSpaces(s)) == JsText.Trim(DotsToSpaces(s[lead..|s| - trail]))
  {
    var x, y, z := s[..lead], s[lead..|s| - trail], s[|s| - trail..];
    BreakRuns(s, lead, trail);
    SplitThree(s, lead, |s| - trail);
    DotsAroundMiddle(s, x, y, z);
    DotsToSpacesOfBreaks(x);
    DotsToSpacesOfBreaks(z);
    JsText.TrimIgnoresWhitespaceAffixes(x, DotsToSpaces(y), z);
  }

  /** The leading and trailing break runs, cut out of the text, are made of
      line breaks only. */
  lemma BreakRuns(s: string, lead: nat, trail: nat)
    requires lead == LeadingBreaks(s) && trail == TrailingBreaks(s) && lead <= |s| - trail
    ensures AllBreaks(s[..lead]) && AllBreaks(s[|s| - trail..])
  {
    var z := s[|s| - trail..];
    forall k | 0 <= k < |z| ensures IsBreak(z[k]) {
      assert z[k] == s[|s| - trail + k];
    }
  }

  predicate AllBreaks(x: string) {
    forall k :: 0 <= k < |x| ==> IsBreak(x[k])
  }

  /** Turning dots into spaces leaves break runs around the middle as they
      are. */
  lemma DotsAroundMiddle(s: string, x: string, y: string, z: string)
    requires s == x + y + z
    requires forall k :: 0 <= k < |x| ==> IsBreak(x[k])
    requires forall k :: 0 <= k < |z| ==> IsBreak(z[k])
    ensures DotsToSpaces(s) == x + DotsToSpaces(y) + z
  {
    DotsToSpacesConcat(x + y, z);
    DotsToSpacesConcat(x, y);
    DotsToSpacesOfBreaks(x);
    DotsToSpacesOfBreaks(z);
  }

  // ------------------------------------------------- header cell pattern

  /** Length of the longest prefix free of `,` and `[`: what the greedy
      group `([^,\[]+)` takes. */
  function NameSpan(s: string): (n: nat)
    ensures n <= |s|
    ensures forall i :: 0 <= i < n ==> s[i] != ',' && s[i] != '['
    ensures n < |s| ==> s[n] == ',' || s[n] == '['
  {
    NameEnd(s, 0)
  }

  function NameEnd(s: string, i: nat): (k: nat)
    requires i <= |s|
    ensures i <= k <= |s|
    ensures forall j :: i <= j < k ==> s[j] != ',' && s[j] != '['
    ensures k < |s| ==> s[k] == ',' || s[k] == '['
    decreases |s| - i
  {
    if i < |s| && s[i] != ',' && s[i] != '[' then NameEnd(s, i + 1) else i
  }

  /** The three capture groups of `/([^,\[]+)\[(I|M|A),(String|Number)]?/`
      and where the match starts. */
  datatype ColumnMatch = ColumnMatch(start: nat, name: string, roleLetter: char, typeWord: string)

  /** Declarative reading of the column pattern: a match starting at `p`
      whose name group has length `n`. */
  ghost predicate PatternAt(s: string, p: nat, n: nat, letter: char, word: string) {
    && n > 0
    && word in ["String", "Number"]
    && p + n + 3 + |word| <= |s|
    && (forall i :: p <= i < p + n ==> s[i] != ',' && s[i] != '[')
    && s[p + n] == '['
    && letter in "IMA"
    && s[p + n + 1] == letter
    && s[p + n + 2] == ','
    && s[p + n + 3..p + n + 3 + |word|] == word
  }

  /** The match the regular expression engine finds when it starts at `p`:
      the name group can only end just before a `[`, so the greedy run is the
      only candidate and no backtracking can succeed where it fails. */
  function MatchAt(s: string, p: nat): (m: Option<ColumnMatch>)
    requires p <= |s|
    ensures m.Some? ==> m.value.start == p && p + |m.value.name| <= |s|
    ensures m.Some? ==> m.value.name == s[p..p + |m.value.name|] && |m.value.name| > 0
    ensures m.Some? ==> m.value.roleLetter in "IMA" && m.value.typeWord in ["String", "Number"]
    ensures m.Some? ==> forall i :: 0 <= i < |m.value.name| ==> m.value.name[i] != ',' && m.value.name[i] != '['
  {
    var rest := s[p..];
    var n := NameSpan(rest);
    if n == 0 || n + 3 > |rest| || rest[n] != '[' || rest[n + 1] !in "IMA" || rest[n + 2] != ',' then None
    else
      var tail := rest[n + 3..];
      if |tail| >= 6 && tail[..6] == "String" then Some(ColumnMatch(p, rest[..n], rest[n + 1], "String"))
      else if |tail| >= 6 && tail[..6] == "Number" then Some(ColumnMatch(p, rest[..n], rest[n + 1], "Number"))
      else None
  }

  /** What `MatchAt` returns is a match of the pattern. */
  lemma MatchAtSound(s: string, p: nat)
    requires p <= |s| && MatchAt(s, p).Some?
    ensures var m := MatchAt(s, p).value;
      PatternAt(s, p, |m.name|, m.roleLetter, m.typeWord)
  {
    var rest := s[p..];
    var k := NameSpan(rest);
    assert rest[k + 3..][..6] == s[p + k + 3..p + k + 3 + 6];
    assert forall i :: p <= i < p + k ==> s[i] == rest[i - p];
  }

  /** Any match of the pattern at `p` is the one `MatchAt` returns: the
      match at a position is unique and the greedy scan finds it. */
  lemma MatchAtComplete(s: string, p: nat, n: nat, letter: char, word: string)
    requires p <= |s| && PatternAt(s, p, n, letter, word)
    ensures MatchAt(s, p) == Some(ColumnMatch(p, s[p..p + n], letter, word))
  {
    var rest := s[p..];
    var k := NameSpan(rest);
    assert forall i :: 0 <= i < n ==> rest[i] == s[p + i];
    NameSpanCovers(rest, n);
    assert rest[n] == '[';
    assert k == n;
    assert rest[n + 3..][..|word|] == s[p + n + 3..p + n + 3 + |word|];
    assert rest[..n] == s[p..p + n];
  }

  lemma NameSpanCovers(s: string, n: nat)
    requires n <= |s|
    requires forall i :: 0 <= i < n ==> s[i] != ',' && s[i] != '['
    ensures NameSpan(s) >= n
  {
  }

  /** `columnRegex.exec(cell)`: the first position at or after `from`
      where the pattern matches. */
  function Exec(s: string, from: nat): (m: Option<ColumnMatch>)
    requires from <= |s|
    ensures m.Some? ==> from <= m.value.start <= |s| && MatchAt(s, m.value.start) == m
    decreases |s| - from
  {
    match MatchAt(s, from)
    case Some(m) => Some(m)
    case None => if from == |s| then None else Exec(s, from + 1)
  }

  /** The match `Exec` finds is the leftmost one, and when it finds none
      there is none. */
  lemma ExecIsLeftmost(s: string, from: nat)
    requires from <= |s|
    ensures Exec(s, from).Some? ==> forall q :: from <= q < Exec(s, from).value.start ==> MatchAt(s, q).None?
    ensures Exec(s, from).None? ==> forall q :: from <= q <= |s| ==> MatchAt(s, q).None?
  {
    var m := Exec(s, from);
    var end := if m.Some? then m.value.start else |s| + 1;
    forall q | from <= q < end ensures MatchAt(s, q).None? {
      ExecSkips(s, from, q);
    }
  }

  /** No position `Exec` passes over matches. */
  lemma {:induction false} ExecSkips(s: string, from: nat, q: nat)
    requires from <= q <= |s|
    requires Exec(s, from).Some? ==> q < Exec(s, from).value.start
    ensures MatchAt(s, q).None?
    decreases q - from
  {
    if q > from {
      ExecSkips(s, from + 1, q);
    }
  }

  function RoleOf(letter: char): Role
    requires letter in "IMA"
  {
    if letter == 'I' then Identifier else if letter == 'M' then Measure else Attribute
  }

  function RoleLetter(role: Role): char {
    match role
    case Identifier => 'I'
    case Measure => 'M'
    case Attribute => 'A'
  }

  /** One iteration of the header loop: the trimmed cell is matched and the
      groups become a structure entry, or the match is `null`. */
  function ParseColumn(cell: string): (c: Option<Column>)
    ensures c.Some? ==> |c.value.name| > 0
    ensures c.Some? ==> c.value.typeName in ["java.lang.String", "java.lang.Number"]
    ensures c.Some? ==> forall i :: 0 <= i < |c.value.name| ==> c.value.name[i] != ',' && c.value.name[i] != '['
  {
    var t := JsText.Trim(cell);
    match Exec(t, 0)
    case None => None
    case Some(m) => Some(ColumnOf(m))
  }

  /** The column a match describes: its role from the role letter and its
      type as the `java.lang.` class named by the type word. */
  function ColumnOf(m: ColumnMatch): (c: Column)
    requires m.roleLetter in "IMA" && m.typeWord in ["String", "Number"]
    ensures c.name == m.name && c.typeName in ["java.lang.String", "java.lang.Number"]
    ensures c.typeName == "java.lang." + m.typeWord
    ensures RoleLetter(c.role) == m.roleLetter
  {
    assert "java.lang." + "String" == "java.lang.String";
    assert "java.lang." + "Number" == "java.lang.Number";
    Column(m.name, RoleOf(m.roleLetter), "java.lang." + m.typeWord)
  }

  /** The header loop: the parsed cells are collected until the first one
      that did not match, whose index is the error. */
  function Collect<T>(xs: seq<Option<T>>): (r: Result<seq<T>, nat>)
    ensures r.Success? ==> |r.value| == |xs| && forall k :: 0 <= k < |xs| ==> xs[k] == Some(r.value[k])
    ensures r.Failure? ==> r.error < |xs| && xs[r.error].None?
    ensures r.Failure? ==> forall k :: 0 <= k < r.error ==> xs[k].Some?
  {
    CollectFrom(xs, 0)
  }

  function CollectFrom<T>(xs: seq<Option<T>>, i: nat): (r: Result<seq<T>, nat>)
    requires i <= |xs|
    ensures r.Success? ==> |r.value| == |xs| - i && forall k :: i <= k < |xs| ==> xs[k] == Some(r.value[k - i])
    ensures r.Failure? ==> i <= r.error < |xs| && xs[r.error].None?
    ensures r.Failure? ==> forall k :: i <= k < r.error ==> xs[k].Some?
    decreases |xs| - i
  {
    if i == |xs| then Success([])
    else match xs[i]
      case None => Failure(i)
      case Some(x) =>
        match CollectFrom(xs, i + 1)
        case Failure(e) => Failure(e)
        case Success(rest) => Success([x] + rest)
  }

  /** The row loop: the index of the first row whose width is not `width`. */
  function FirstWrongWidth(rows: seq<seq<string>>, width: nat): (r: Option<nat>)
    ensures r.None? ==> forall k :: 0 <= k < |rows| ==> |rows[k]| == width
    ensures r.Some? ==> r.value < |rows| && |rows[r.value]| != width
    ensures r.Some? ==> forall k :: 0 <= k < r.value ==> |rows[k]| == width
  {
    WrongWidthFrom(rows, width, 0)
  }

  function WrongWidthFrom(rows: seq<seq<string>>, width: nat, i: nat): (r: Option<nat>)
    requires i <= |rows|
    ensures r.None? ==> forall k :: i <= k < |rows| ==> |rows[k]| == width
    ensures r.Some? ==> i <= r.value < |rows| && |rows[r.value]| != width
    ensures r.Some? ==> forall k :: i <= k < r.value ==> |rows[k]| == width
    decreases |rows| - i
  {
    if i == |rows| then None
    else if |rows[i]| != width then Some(i)
    else WrongWidthFrom(rows, width, i + 1)
  }

  /** The cells of one data line: `lines[i].trim().split(',')`. */
  function RowCells(line: string): seq<string> {
    JsText.Split(JsText.Trim(line), ",")
  }

  /** The header cells: `lines[0].split('],')`. */
  function HeaderCells(line: string): seq<string> {
    JsText.Split(line, "],")
  }

  /** Each header cell matched and converted. */
  function ParsedHeader(cells: seq<string>): (r: seq<Option<Column>>)
    ensures |r| == |cells|
    ensures forall k :: 0 <= k < |cells| ==> r[k] == ParseColumn(cells[k])
  {
    seq(|cells|, k requires 0 <= k < |cells| => ParseColumn(cells[k]))
  }

  /** The cells of every line after the header. */
  function DataRows(rows: seq<string>): (r: seq<seq<string>>)
    ensures |r| == |rows|
    ensures forall k :: 0 <= k < |rows| ==> r[k] == RowCells(rows[k])
  {
    seq(|rows|, k requires 0 <= k < |rows| => RowCells(rows[k]))
  }

  /** `lines < 1`: the array is converted to the string `lines.join(',')`
      and that string to a number. With two or more lines the joined string
      carries a comma, which no number does, so the guard never fires; with
      one line it compares that line, as a number, with 1. */
  predicate NoHeaderGuard(lines: seq<string>): (b: bool)
    requires |lines| >= 1
    ensures |lines| >= 2 ==> !b
    ensures |lines| == 1 ==> (b <==> JsNumber.LessThanOne(JsNumber.ToNumber(lines[0])))
  {
    var joined := JsText.Join(lines, ",");
    assert |lines| >= 2 ==> JsNumber.ToNumber(joined) == JsNumber.NaN by {
      if |lines| >= 2 {
        JoinedLinesAreNaN(lines);
      }
    }
    assert |lines| == 1 ==> joined == lines[0];
    JsNumber.LessThanOne(JsNumber.ToNumber(joined))
  }

  /** Two or more lines joined with commas do not read as a number. */
  lemma JoinedLinesAreNaN(lines: seq<string>)
    requires |lines| >= 2
    ensures JsNumber.ToNumber(JsText.Join(lines, ",")) == JsNumber.NaN
  {
    var joined := JsText.Join(lines, ",");
    assert joined == lines[0] + "," + JsText.Join(lines[1..], ",");
    assert joined[|lines[0]|] == ',';
    JsNumber.ForeignCharIsNaN(joined, |lines[0]|);
  }

  /** The lines of the cleaned text: one more than it has line feeds, none
      holding a line feed. */
  function Lines(text: string): (ls: seq<string>)
    ensures |ls| == JsText.CountOf(CleanText(text), '\n') + 1
    ensures forall k :: 0 <= k < |ls| ==> JsText.Lacks(ls[k], '\n')
  {
    JsText.SplitLinesCount(CleanText(text));
    JsText.SplitLines(CleanText(text))
  }

  /** `createDataset(text, name)`: clean the text, split it into lines and
      parse them. */
  function CreateDataset(text: string, name: string): (r: Result<TextDataset, ParseError>)
    ensures r.Success? ==> r.value.name == name
    ensures r == Failure(NoHeaderFound) <==> NoHeaderGuard(Lines(text))
    ensures r.Success? ==> |r.value.data| == |Lines(text)| - 1
  {
    FromLines(Lines(text), name)
  }

  /** Everything after the split into lines: the `lines < 1` guard, then
      the first line as the header and the others as rows. */
  function FromLines(lines: seq<string>, name: string): (r: Result<TextDataset, ParseError>)
    requires |lines| >= 1
    ensures r == Failure(NoHeaderFound) <==> NoHeaderGuard(lines)
    ensures !NoHeaderGuard(lines) ==> r == ParseLines(lines[0], lines[1..], name)
  {
    if NoHeaderGuard(lines) then Failure(NoHeaderFound)
    else ParseLines(lines[0], lines[1..], name)
  }

  /** The first `n` header cells each name a column. */
  predicate CellsParse(cells: seq<string>, n: nat)
    requires n <= |cells|
  {
    forall k :: 0 <= k < n ==> ParseColumn(cells[k]).Some?
  }

  /** The first `n` rows each have `width` cells. */
  predicate RowsOfWidth(rows: seq<string>, n: nat, width: nat)
    requires n <= |rows|
  {
    forall k :: 0 <= k < n ==> |RowCells(rows[k])| == width
  }

  /** The header loop over the cells of the header line, then the row loop
      over the other lines, each row checked against the width of the
      structure. */
  function ParseLines(header: string, rows: seq<string>, name: string): (r: Result<TextDataset, ParseError>)
    ensures r.Failure? ==> r.error.HeaderCellUnmatched? || r.error.RowSizeInconsistent?
    ensures r.Success? ==> r.value.name == name
    ensures r.Success? ==> |r.value.structure| == |HeaderCells(header)|
    ensures r.Success? ==> forall k :: 0 <= k < |r.value.structure| ==>
      ParseColumn(HeaderCells(header)[k]) == Some(r.value.structure[k])
    ensures r.Success? ==> |r.value.data| == |rows|
    ensures r.Success? ==> forall k :: 0 <= k < |rows| ==>
      r.value.data[k] == RowCells(rows[k]) && |r.value.data[k]| == |r.value.structure|
    ensures r.Failure? && r.error.HeaderCellUnmatched? ==>
      r.error.cell < |HeaderCells(header)| && ParseColumn(HeaderCells(header)[r.error.cell]).None?
    ensures r.Failure? && r.error.HeaderCellUnmatched? ==>
      CellsParse(HeaderCells(header), r.error.cell)
    ensures r.Failure? && r.error.RowSizeInconsistent? ==>
      CellsParse(HeaderCells(header), |HeaderCells(header)|)
    ensures r.Failure? && r.error.RowSizeInconsistent? ==>
      r.error.row < |rows| && |RowCells(rows[r.error.row])| != |HeaderCells(header)|
    ensures r.Failure? && r.error.RowSizeInconsistent? ==>
      RowsOfWidth(rows, r.error.row, |HeaderCells(header)|)
  {
    match ParseHeader(HeaderCells(header))
    case Failure(i) => Failure(HeaderCellUnmatched(i))
    case Success(structure) => ParseRows(structure, rows, name)
  }

  /** The header cells as columns, or the first cell that names none. */
  function ParseHeader(cells: seq<string>): (r: Result<seq<Column>, nat>)
    ensures r.Success? ==> |r.value| == |cells|
    ensures r.Success? ==> forall k :: 0 <= k < |cells| ==> ParseColumn(cells[k]) == Some(r.value[k])
    ensures r.Failure? ==> r.error < |cells| && ParseColumn(cells[r.error]).None?
    ensures r.Failure? ==> CellsParse(cells, r.error)
  {
    Collect(ParsedHeader(cells))
  }

  /** The rows after a header that parsed into `structure`: the first row of
      another width is reported, otherwise every row becomes a data row. */
  function ParseRows(structure: seq<Column>, rows: seq<string>, name: string): (r: Result<TextDataset, ParseError>)
    ensures r.Failure? ==> r.error.RowSizeInconsistent?
    ensures r.Success? ==> r.value.name == name && r.value.structure == structure
    ensures r.Success? ==> |r.value.data| == |rows|
    ensures r.Success? ==> forall k :: 0 <= k < |rows| ==>
      r.value.data[k] == RowCells(rows[k]) && |r.value.data[k]| == |structure|
    ensures r.Failure? ==>
      r.error.row < |rows| && |RowCells(rows[r.error.row])| != |structure|
    ensures r.Failure? ==> RowsOfWidth(rows, r.error.row, |structure|)
  {
    var data := DataRows(rows);
    match FirstWrongWidth(data, |structure|)
    case Some(e) => Failure(RowSizeInconsistent(e))
    case None => Success(TextDataset(name, structure, data))
  }

  /** A text of dots and line breaks cleans to the empty string, whose single
      empty line converts to the number 0, so the `lines < 1` guard fires. */
  lemma DotsOnlyHasNoHeader(text: string, name: string)
    requires forall i :: 0 <= i < |text| ==> text[i] == '.' || IsBreak(text[i])
    ensures CreateDataset(text, name) == Failure(NoHeaderFound)
  {
    var lines := Lines(text);
    DotsOnlyCleansToEmpty(text);
    assert lines == JsText.SplitLines("") == [""];
    JsNumber.EmptyIsBelowOne();
    assert JsNumber.LessThanOne(JsNumber.ToNumber(lines[0]));
    assert NoHeaderGuard(lines);
  }

  lemma DotsOnlyCleansToEmpty(text: string)
    requires forall i :: 0 <= i < |text| ==> text[i] == '.' || IsBreak(text[i])
    ensures CleanText(text) == ""
  {
    CleanTextIsTrimmedDotsToSpaces(text);
    assert JsText.AllWhitespace(DotsToSpaces(text));
    JsText.AllWhitespaceTrimsToEmpty(DotsToSpaces(text));
  }
}
