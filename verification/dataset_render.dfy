/** The inline dataset text format read backwards: a dataset whose names and
    values need no escaping is written as the text `createDataset` accepts,
    and reading that text gives the dataset back. */
module DatasetRender {

  import opened Wrappers
  import JsText
  import JsNumber
  import opened Roles
  import opened DatasetText

  /** A value that survives cleaning, trimming and splitting on `,`:
      non-empty, without dots, commas or white space. */
  predicate PlainValue(s: string) {
    && |s| > 0
    && JsText.NoWhitespace(s)
    && JsText.Avoids(s, {'.', ','})
  }

  /** A column that can be written as a header cell: its name is a plain
      value without brackets and its type is one the header pattern names. */
  predicate PlainColumn(c: Column) {
    && PlainValue(c.name)
    && JsText.Avoids(c.name, {'[', ']'})
    && c.typeName in ["java.lang.String", "java.lang.Number"]
  }

  predicate Renderable(d: TextDataset) {
    && |d.structure| >= 1
    && (forall k :: 0 <= k < |d.structure| ==> PlainColumn(d.structure[k]))
    && (forall r :: 0 <= r < |d.data| ==> |d.data[r]| == |d.structure|)
    && (forall r, k :: 0 <= r < |d.data| && 0 <= k < |d.data[r]| ==> PlainValue(d.data[r][k]))
  }

  function TypeWord(typeName: string): string {
    if typeName == "java.lang.String" then "String" else "Number"
  }

  /** `name[L,Type` — the header cell as `split('],')` leaves it. */
  function ColumnText(c: Column): (t: string)
    ensures |t| == |c.name| + 3 + |TypeWord(c.typeName)|
  {
    c.name + "[" + [RoleLetter(c.role)] + "," + TypeWord(c.typeName)
  }

  /** The header cells; the last one keeps the closing bracket. */
  function HeaderParts(structure: seq<Column>): (parts: seq<string>)
    ensures |parts| == |structure|
  {
    seq(|structure|, k requires 0 <= k < |structure| =>
      ColumnText(structure[k]) + (if k == |structure| - 1 then "]" else ""))
  }

  function HeaderLine(structure: seq<Column>): string
    requires |structure| >= 1
  {
    JsText.Join(HeaderParts(structure), "],")
  }

  function RowLine(row: seq<string>): string
    requires |row| >= 1
  {
    JsText.Join(row, ",")
  }

  function TextLines(d: TextDataset): (lines: seq<string>)
    requires Renderable(d)
    ensures |lines| == |d.data| + 1
  {
    [HeaderLine(d.structure)] + seq(|d.data|, r requires 0 <= r < |d.data| => RowLine(d.data[r]))
  }

  /** The inline text of a dataset: the header line, then one line per row. */
  function RenderText(d: TextDataset): string
    requires Renderable(d)
  {
    JsText.Join(TextLines(d), "\n")
  }

  // ------------------------------------------------------------- header

  lemma RoleLetterInverse(role: Role)
    ensures RoleLetter(role) in "IMA" && RoleOf(RoleLetter(role)) == role
  {
  }

  /** A header cell written for a column matches the column pattern at its
      first character with the column's own groups. */
  lemma ColumnTextMatches(c: Column, close: string)
    requires PlainColumn(c) && close in ["", "]"]
    ensures var t := ColumnText(c) + close;
      PatternAt(t, 0, |c.name|, RoleLetter(c.role), TypeWord(c.typeName))
  {
    var t := ColumnText(c) + close;
    var n := |c.name|;
    var word := TypeWord(c.typeName);
    assert t == c.name + "[" + [RoleLetter(c.role)] + "," + word + close;
    assert forall i :: 0 <= i < n ==> t[i] == c.name[i];
    assert t[n] == '[' && t[n + 1] == RoleLetter(c.role) && t[n + 2] == ',';
    assert t[n + 3..n + 3 + |word|] == word;
  }

  /** Reading a written header cell gives the column back. */
  lemma ParseColumnText(c: Column, close: string)
    requires PlainColumn(c) && close in ["", "]"]
    ensures ParseColumn(ColumnText(c) + close) == Some(c)
  {
    var t := ColumnText(c) + close;
    var word := TypeWord(c.typeName);
    ColumnTextIsTrimmed(c, close);
    ExecOfColumnText(c, close);
    ColumnOfText(c);
  }

  /** The match of a written cell describes the column it was written for. */
  lemma ColumnOfText(c: Column)
    requires PlainColumn(c)
    ensures ColumnOf(ColumnMatch(0, c.name, RoleLetter(c.role), TypeWord(c.typeName))) == c
  {
    RoleLetterInverse(c.role);
    assert "java.lang." + TypeWord(c.typeName) == c.typeName;
  }

  lemma ColumnTextIsTrimmed(c: Column, close: string)
    requires PlainColumn(c) && close in ["", "]"]
    ensures JsText.Trim(ColumnText(c) + close) == ColumnText(c) + close
  {
    var t := ColumnText(c) + close;
    var word := TypeWord(c.typeName);
    assert t[0] == c.name[0];
    assert t[|t| - 1] == (if close == "" then word[|word| - 1] else ']');
    JsText.TrimOfTrimmed(t);
  }

  lemma ExecOfColumnText(c: Column, close: string)
    requires PlainColumn(c) && close in ["", "]"]
    ensures Exec(ColumnText(c) + close, 0)
      == Some(ColumnMatch(0, c.name, RoleLetter(c.role), TypeWord(c.typeName)))
  {
    var t := ColumnText(c) + close;
    ColumnTextMatches(c, close);
    MatchAtComplete(t, 0, |c.name|, RoleLetter(c.role), TypeWord(c.typeName));
    assert t[0..|c.name|] == c.name;
  }

  /** No header cell contains the `],` separator. */
  lemma HeaderPartsUnsplit(structure: seq<Column>)
    requires forall k :: 0 <= k < |structure| ==> PlainColumn(structure[k])
    ensures forall k :: 0 <= k < |structure| ==> !JsText.Contains(HeaderParts(structure)[k], "],")
  {
    forall k | 0 <= k < |structure| ensures !JsText.Contains(HeaderParts(structure)[k], "],") {
      var c := structure[k];
      var p := HeaderParts(structure)[k];
      assert p == c.name + "[" + [RoleLetter(c.role)] + "," + TypeWord(c.typeName)
        + (if k == |structure| - 1 then "]" else "");
      assert forall i :: 0 <= i < |c.name| ==> p[i] == c.name[i];
      JsText.NoOccurrenceWithoutFirst(p, "],");
    }
  }

  /** Splitting the header line gives back the written cells. */
  lemma HeaderCellsOfLine(structure: seq<Column>)
    requires |structure| >= 1
    requires forall k :: 0 <= k < |structure| ==> PlainColumn(structure[k])
    ensures HeaderCells(HeaderLine(structure)) == HeaderParts(structure)
  {
    HeaderPartsUnsplit(structure);
    assert JsText.Unbordered("],") by {
      assert "],"[1..][0] == ',' && "],"[..1][0] == ']';
    }
    JsText.SplitJoin(HeaderParts(structure), "],");
  }

  // --------------------------------------------------------------- rows

  lemma PlainValuesUnsplit(row: seq<string>)
    requires forall k :: 0 <= k < |row| ==> PlainValue(row[k])
    ensures forall k :: 0 <= k < |row| ==> !JsText.Contains(row[k], ",")
  {
    forall k | 0 <= k < |row| ensures !JsText.Contains(row[k], ",") {
      JsText.NoOccurrenceWithoutFirst(row[k], ",");
    }
  }

  /** Reading a written row gives its values back. */
  lemma RowCellsOfLine(row: seq<string>)
    requires |row| >= 1
    requires forall k :: 0 <= k < |row| ==> PlainValue(row[k])
    ensures RowCells(RowLine(row)) == row
  {
    var line := RowLine(row);
    JsText.JoinStartsWithFirst(row, ",");
    JsText.JoinEndsWithLast(row, ",");
    assert line[0] == row[0][0];
    assert line[|line| - 1] == row[|row| - 1][|row[|row| - 1]| - 1];
    JsText.TrimOfTrimmed(line);
    PlainValuesUnsplit(row);
    JsText.SplitJoin(row, ",");
  }

  // --------------------------------------------------------------- text

  /** Characters no written line holds. */
  const LineFree: set<char> := {'.', '\r', '\n'}

  lemma ColumnTextAvoids(c: Column, close: string)
    requires PlainColumn(c) && close in ["", "]"]
    ensures JsText.Avoids(ColumnText(c) + close, LineFree)
  {
    var word := TypeWord(c.typeName);
    assert ColumnText(c) + close == c.name + "[" + [RoleLetter(c.role)] + "," + word + close;
  }

  lemma LinesAvoid(d: TextDataset)
    requires Renderable(d)
    ensures forall k :: 0 <= k < |TextLines(d)| ==> JsText.Avoids(TextLines(d)[k], LineFree)
  {
    var parts := HeaderParts(d.structure);
    forall k | 0 <= k < |parts| ensures JsText.Avoids(parts[k], LineFree) {
      ColumnTextAvoids(d.structure[k], if k == |parts| - 1 then "]" else "");
    }
    JsText.JoinAvoids(parts, "],", LineFree);
    forall r | 0 <= r < |d.data| ensures JsText.Avoids(RowLine(d.data[r]), LineFree) {
      JsText.JoinAvoids(d.data[r], ",", LineFree);
    }
  }

  /** The written text is already clean: it has no dots and starts and ends
      with characters `trim` keeps. */
  lemma RenderTextIsClean(d: TextDataset)
    requires Renderable(d)
    ensures CleanText(RenderText(d)) == RenderText(d)
  {
    var text := RenderText(d);
    var lines := TextLines(d);
    LinesAvoid(d);
    JsText.JoinAvoids(lines, "\n", {'.', '\r'});
    assert DotsToSpaces(text) == text;
    FirstCharOfText(d);
    LastCharOfText(d);
    JsText.TrimOfTrimmed(text);
    CleanTextIsTrimmedDotsToSpaces(text);
  }

  lemma FirstCharOfText(d: TextDataset)
    requires Renderable(d)
    ensures |RenderText(d)| > 0 && RenderText(d)[0] == d.structure[0].name[0]
  {
    var parts := HeaderParts(d.structure);
    JsText.JoinStartsWithFirst(parts, "],");
    JsText.JoinStartsWithFirst(TextLines(d), "\n");
    assert parts[0][0] == d.structure[0].name[0];
    assert HeaderLine(d.structure)[0] == parts[0][0];
  }

  lemma LastCharOfText(d: TextDataset)
    requires Renderable(d)
    ensures |RenderText(d)| > 0 && !JsText.IsWhitespace(RenderText(d)[|RenderText(d)| - 1])
  {
    var lines := TextLines(d);
    var last := lines[|lines| - 1];
    JsText.JoinEndsWithLast(lines, "\n");
    if |d.data| == 0 {
      var parts := HeaderParts(d.structure);
      JsText.JoinEndsWithLast(parts, "],");
      assert parts[|parts| - 1][|parts[|parts| - 1]| - 1] == ']';
    } else {
      var row := d.data[|d.data| - 1];
      assert last == RowLine(row);
      JsText.JoinEndsWithLast(row, ",");
      assert PlainValue(row[|row| - 1]);
    }
  }

  /** No written line holds a line feed. */
  lemma LinesHaveNoBreak(d: TextDataset)
    requires Renderable(d)
    ensures forall k :: 0 <= k < |TextLines(d)| ==> !JsText.Contains(TextLines(d)[k], "\n")
  {
    var lines := TextLines(d);
    LinesAvoid(d);
    forall k | 0 <= k < |lines| ensures !JsText.Contains(lines[k], "\n") {
      JsText.NoOccurrenceWithoutFirst(lines[k], "\n");
    }
  }

  /** The written text holds no carriage return. */
  lemma RenderTextLacksReturn(d: TextDataset)
    requires Renderable(d)
    ensures JsText.Lacks(RenderText(d), '\r')
  {
    LinesAvoid(d);
    JsText.JoinAvoids(TextLines(d), "\n", {'\r'});
  }

  /** The lines of the written text are the written lines. */
  lemma LinesOfRenderText(d: TextDataset)
    requires Renderable(d)
    ensures Lines(RenderText(d)) == TextLines(d)
  {
    var text := RenderText(d);
    RenderTextIsClean(d);
    RenderTextLacksReturn(d);
    JsText.SplitLinesWithoutCarriageReturn(text);
    LinesHaveNoBreak(d);
    JsText.SplitJoin(TextLines(d), "\n");
  }

  /** The header line carries a `[`, which no number does, so the joined
      lines never compare below one. */
  lemma HeaderPassesGuard(d: TextDataset)
    requires Renderable(d)
    ensures !NoHeaderGuard(TextLines(d))
  {
    var lines := TextLines(d);
    var parts := HeaderParts(d.structure);
    var n := |d.structure[0].name|;
    JsText.JoinStartsWithFirst(parts, "],");
    JsText.JoinStartsWithFirst(lines, ",");
    assert parts[0][n] == '[';
    var joined := JsText.Join(lines, ",");
    assert joined[n] == '[';
    JsNumber.ForeignCharIsNaN(joined, n);
  }

  lemma TextLinesParts(d: TextDataset)
    requires Renderable(d)
    ensures TextLines(d)[0] == HeaderLine(d.structure)
    ensures forall r :: 1 <= r < |TextLines(d)| ==> TextLines(d)[r] == RowLine(d.data[r - 1])
  {
  }

  /** Every written header cell reads back as its column. */
  lemma HeaderOfTextLines(d: TextDataset)
    requires Renderable(d)
    ensures |HeaderCells(TextLines(d)[0])| == |d.structure|
    ensures forall k :: 0 <= k < |d.structure| ==> ParseColumn(HeaderCells(TextLines(d)[0])[k]) == Some(d.structure[k])
  {
    TextLinesParts(d);
    HeaderCellsOfLine(d.structure);
    var parts := HeaderParts(d.structure);
    forall k | 0 <= k < |parts| ensures ParseColumn(parts[k]) == Some(d.structure[k]) {
      ParseColumnText(d.structure[k], if k == |parts| - 1 then "]" else "");
    }
  }

  /** Every written row line reads back as its row. */
  lemma RowsOfTextLines(d: TextDataset)
    requires Renderable(d)
    ensures forall r :: 1 <= r < |TextLines(d)| ==> RowCells(TextLines(d)[r]) == d.data[r - 1]
  {
    TextLinesParts(d);
    forall r | 1 <= r < |TextLines(d)| ensures RowCells(TextLines(d)[r]) == d.data[r - 1] {
      RowCellsOfLine(d.data[r - 1]);
    }
  }

  /** Parsing the written lines gives the dataset back. */
  lemma FromLinesOfTextLines(d: TextDataset)
    requires Renderable(d)
    ensures FromLines(TextLines(d), d.name) == Success(d)
  {
    HeaderPassesGuard(d);
    ParseLinesOfTextLines(d);
  }

  /** The header line and the row lines parse to the dataset. */
  lemma ParseLinesOfTextLines(d: TextDataset)
    requires Renderable(d)
    ensures |TextLines(d)| >= 1
    ensures ParseLines(TextLines(d)[0], TextLines(d)[1..], d.name) == Success(d)
  {
    var lines := TextLines(d);
    HeaderOfTextLines(d);
    RowsOfTextLines(d);
    var rows := lines[1..];
    assert forall k :: 0 <= k < |rows| ==> RowCells(rows[k]) == d.data[k] by {
      assert forall k :: 0 <= k < |rows| ==> rows[k] == lines[k + 1];
    }
    ParseLinesOfParts(d, lines[0], rows);
  }

  /** A header line whose cells read back as the structure and rows that
      read back as the data parse to the dataset. */
  lemma ParseLinesOfParts(d: TextDataset, header: string, rows: seq<string>)
    requires |HeaderCells(header)| == |d.structure|
    requires forall k :: 0 <= k < |d.structure| ==> ParseColumn(HeaderCells(header)[k]) == Some(d.structure[k])
    requires |rows| == |d.data|
    requires forall k :: 0 <= k < |rows| ==> RowCells(rows[k]) == d.data[k]
    requires forall k :: 0 <= k < |d.data| ==> |d.data[k]| == |d.structure|
    ensures ParseLines(header, rows, d.name) == Success(d)
  {
    var res := ParseLines(header, rows, d.name);
    assert res.Success?;
    assert res.value.structure == d.structure;
    assert res.value.data == d.data;
  }

  /** Writing a dataset as inline text and reading it back gives the same
      dataset. */
  lemma CreateDatasetOfRenderText(d: TextDataset)
    requires Renderable(d)
    ensures CreateDataset(RenderText(d), d.name) == Success(d)
  {
    LinesOfRenderText(d);
    FromLinesOfTextLines(d);
  }
}
