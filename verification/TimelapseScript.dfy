/** The text of a change script: when it is read as the written statements and nothing else. */
module TimelapseScript {
  import opened Common
  import opened ScriptGaps
  import opened TimelapseDml
  import MaskSpec
  import SqlScript

  // --- line breaks ---

  lemma {:induction false} BreaksMakePieces(s: string)
    ensures |SplitLines(s)| == 1 <==> !HasBreak(s)
  {
    hide SplitLines;
    EmptySplit();
    if s != "" {
      BreaksMakePieces(s[..|s| - 1]);
      LastChar(s);
    }
  }

  // --- lines written and lines of the text ---

  /** A line of the script's text; a statement is kept whole. */
  datatype Physical = TextLine(text: string) | StatementLine(statement: Statement)

  function TextLines(pieces: seq<string>): seq<Physical> {
    seq(|pieces|, i requires 0 <= i < |pieces| => TextLine(pieces[i]))
  }

  function LinesIn(line: Line): seq<Physical> {
    if line.Sql? then [StatementLine(line.statement)] else TextLines(SplitLines("-- " + line.text))
  }

  function PhysicalLines(lines: seq<Line>): seq<Physical> {
    if lines == [] then [] else PhysicalLines(lines[..|lines| - 1]) + LinesIn(lines[|lines| - 1])
  }

  /** The text has one line for each heading, note and statement exactly when no heading or note has a line break. */
  lemma {:induction false} OneLineEach(lines: seq<Line>)
    ensures |PhysicalLines(lines)| >= |lines|
    ensures |PhysicalLines(lines)| == |lines| <==> forall line :: line in lines && !line.Sql? ==> !HasBreak(line.text)
  {
    hide SplitLines, HasBreak;
    if lines != [] {
      var n := |lines| - 1;
      var line := lines[n];
      OneLineEach(lines[..n]);
      assert lines == lines[..n] + [line];
      assert forall l :: l in lines <==> l in lines[..n] || l == line;
      if !line.Sql? {
        BreaksMakePieces("-- " + line.text);
        BreakAfterDashes(line.text);
      }
    }
  }

  lemma BreakAfterDashes(s: string)
    ensures HasBreak("-- " + s) <==> HasBreak(s)
  {
  }

  // --- the script of a difference ---

  /** A row the script has a note for instead of a statement. */
  predicate IsSkipped(r: ExportRow, o: Options) { LineOf(r, o).Some? && LineOf(r, o).value.Skipped? }

  lemma SkippedShowsNote(r: ExportRow, o: Options)
    ensures LineOf(r, o).Some? ==> !LineOf(r, o).value.Heading?
    ensures IsSkipped(r, o) ==> LineOf(r, o).value.text == Note(r, o)
  {
  }

  lemma {:induction false} LinesAreOfRows(rows: seq<ExportRow>, o: Options)
    ensures forall line :: line in LinesOf(rows, o) <==> exists r :: r in rows && LineOf(r, o) == Some(line)
  {
    hide LineOf;
    if rows != [] {
      var n := |rows| - 1;
      LinesAreOfRows(rows[..n], o);
      assert rows == rows[..n] + [rows[n]];
      assert forall r :: r in rows <==> r in rows[..n] || r == rows[n];
    }
  }

  lemma HeadingsAreUnbroken(o: Options)
    ensures forall line :: line in Headings(o) ==> !line.Sql? && !HasBreak(line.text)
  {
    hide HasBreak;
  }

  /** The script of a difference: its headings, then a line for each row. */
  function ScriptLines(rows: seq<ExportRow>, o: Options): seq<Line> { Headings(o) + LinesOf(rows, o) }

  /** What holds of all headings and notes holds of the notes of skipped rows, and the other way round. */
  lemma NotesOfScript(rows: seq<ExportRow>, o: Options, p: string -> bool)
    requires forall s :: !HasBreak(s) ==> p(s)
    ensures (forall line :: line in ScriptLines(rows, o) && !line.Sql? ==> p(line.text)) <==>
            (forall r :: r in rows && IsSkipped(r, o) ==> p(Note(r, o)))
  {
    hide LineOf, Note, HasBreak, LinesOf, Headings;
    LinesAreOfRows(rows, o);
    HeadingsAreUnbroken(o);
    if forall line :: line in ScriptLines(rows, o) && !line.Sql? ==> p(line.text) {
      forall r | r in rows && IsSkipped(r, o) ensures p(Note(r, o)) {
        SkippedShowsNote(r, o);
        assert LineOf(r, o).value in ScriptLines(rows, o);
      }
    }
    if forall r :: r in rows && IsSkipped(r, o) ==> p(Note(r, o)) {
      forall line | line in LinesOf(rows, o) && !line.Sql? ensures p(line.text) {
        var r :| r in rows && LineOf(r, o) == Some(line);
        SkippedShowsNote(r, o);
      }
    }
  }

  /** The text has one line for each line written exactly when no skipped row's note has a line break. */
  lemma OneLineForEachRow(rows: seq<ExportRow>, o: Options)
    ensures |PhysicalLines(ScriptLines(rows, o))| == |ScriptLines(rows, o)| <==>
            forall r :: r in rows && IsSkipped(r, o) ==> !HasBreak(Note(r, o))
  {
    hide PhysicalLines, ScriptLines, IsSkipped, Note, HasBreak;
    OneLineEach(ScriptLines(rows, o));
    NotesOfScript(rows, o, s => !HasBreak(s));
  }

  // --- key texts and line breaks ---

  lemma BreakInSum(a: string, b: string)
    ensures HasBreak(a + b) <==> HasBreak(a) || HasBreak(b)
  {
  }

  predicate ColumnBreaks(key: Record, c: string, masked: set<string>) {
    HasBreak(c) || HasBreak(Shown(key, c, masked))
  }

  lemma KeyPartBreaks(key: Record, c: string, masked: set<string>)
    ensures HasBreak(KeyPart(key, c, masked)) <==> ColumnBreaks(key, c, masked)
  {
    hide HasBreak, Shown;
    NoBreaks();
    BreakInSum(c, "=");
    BreakInSum(c + "=", Shown(key, c, masked));
  }

  lemma {:induction false} KeyTextBreaks(columns: seq<string>, key: Record, masked: set<string>)
    ensures HasBreak(KeyText(columns, key, masked)) <==> exists c :: c in columns && ColumnBreaks(key, c, masked)
  {
    hide HasBreak, ColumnBreaks, KeyPart;
    NoBreaks();
    if columns != [] {
      var n := |columns| - 1;
      var before, c := KeyText(columns[..n], key, masked), columns[n];
      var comma := if n == 0 then "" else ", ";
      KeyTextBreaks(columns[..n], key, masked);
      KeyPartBreaks(key, c, masked);
      BreakInSum(before, comma);
      BreakInSum(before + comma, KeyPart(key, c, masked));
      InLast(columns);
    }
  }

  lemma InLast(columns: seq<string>)
    requires columns != []
    ensures forall x :: x in columns <==> x in columns[..|columns| - 1] || x == columns[|columns| - 1]
  {
    assert columns == columns[..|columns| - 1] + [columns[|columns| - 1]];
  }

  lemma NoBreaks()
    ensures !HasBreak("") && !HasBreak(", ") && !HasBreak("=") && !HasBreak("NULL")
    ensures !HasBreak(PLACEHOLDER.text) && !HasBreak(DEFAULT_NOTE)
  {
  }

  /** A displayed key has a line break in a column name or in a value that is not masked. */
  ghost predicate KeyBreaks(r: ExportRow, masked: set<string>) {
    exists c :: c in r.keyColumns &&
      (HasBreak(c) || (c !in masked && Get(r.key, c).Value? && HasBreak(Get(r.key, c).text)))
  }

  lemma NoteBreaks(r: ExportRow, o: Options)
    requires !HasBreak(o.noteBefore) && !HasBreak(o.noteAfter)
    ensures HasBreak(Note(r, o)) <==> KeyBreaks(r, o.masked)
  {
    hide HasBreak, KeyText, Get;
    NoBreaks();
    KeyTextBreaks(r.keyColumns, r.key, o.masked);
    BreakInSum(o.noteBefore, KeyText(r.keyColumns, r.key, o.masked));
    BreakInSum(o.noteBefore + KeyText(r.keyColumns, r.key, o.masked), o.noteAfter);
    assert forall c :: ColumnBreaks(r.key, c, o.masked) <==>
      HasBreak(c) || (c !in o.masked && Get(r.key, c).Value? && HasBreak(Get(r.key, c).text));
  }

  /** Each row of the script is on one line exactly when no skipped row shows a key with a line break. */
  lemma KeysDecideLines(rows: seq<ExportRow>, o: Options)
    requires !HasBreak(o.noteBefore) && !HasBreak(o.noteAfter)
    ensures |PhysicalLines(ScriptLines(rows, o))| == |ScriptLines(rows, o)| <==>
            forall r :: r in rows && IsSkipped(r, o) ==> !KeyBreaks(r, o.masked)
  {
    hide PhysicalLines, ScriptLines, IsSkipped, HasBreak, KeyBreaks, Note;
    OneLineForEachRow(rows, o);
    forall r ensures HasBreak(Note(r, o)) <==> KeyBreaks(r, o.masked) {
      NoteBreaks(r, o);
    }
  }

  // --- the text and its gaps ---

  function LineText(line: Line, render: Statement -> string): string {
    if line.Sql? then render(line.statement) else "-- " + line.text
  }

  /** The script as it is handed out: every line followed by a line break. */
  function ScriptText(lines: seq<Line>, render: Statement -> string): string {
    if lines == [] then ""
    else ScriptText(lines[..|lines| - 1], render) + LineText(lines[|lines| - 1], render) + "\n"
  }

  /** The statements, and the comment lines between them taken together. */
  function Chunks(lines: seq<Line>, render: Statement -> string): seq<Item> {
    if lines == [] then []
    else
      var n := |lines| - 1;
      var before, text := Chunks(lines[..n], render), LineText(lines[n], render);
      if lines[n].Sql? then before + [Stmt(text)]
      else if before == [] || before[|before| - 1].Stmt? then before + [Gap(text)]
      else before[..|before| - 1] + [Gap(Lines(before[|before| - 1].text, text))]
  }

  lemma {:induction false} ItemsPush(items: seq<Item>, item: Item)
    ensures ItemsText(items + [item]) == ItemsText(items) + item.text + "\n"
  {
    hide Lines;
    if items == [] {
      assert [item][1..] == [];
      LinesAre(item.text, "");
      assert item.text + "\n" + "" == "" + item.text + "\n";
    } else {
      ItemsPush(items[1..], item);
      assert (items + [item])[1..] == items[1..] + [item];
      LinesAre(items[0].text, ItemsText(items[1..]));
      LinesAre(items[0].text, ItemsText(items[1..] + [item]));
      Regroup(items[0].text, ItemsText(items[1..]), item.text);
    }
  }

  lemma LinesAre(u: string, rest: string)
    ensures Lines(u, rest) == u + "\n" + rest
  {
  }

  lemma Regroup(u: string, rest: string, v: string)
    ensures u + "\n" + (rest + v + "\n") == u + "\n" + rest + v + "\n"
  {
  }

  lemma ItemsGrow(before: seq<Item>, last: Item, text: string)
    ensures ItemsText(before + [Gap(Lines(last.text, text))]) == ItemsText(before + [last]) + text + "\n"
  {
    hide Lines, ItemsText;
    ItemsPush(before, Gap(Lines(last.text, text)));
    ItemsPush(before, last);
    LinesAre(last.text, text);
    LongerGap(ItemsText(before), last.text, text);
  }

  lemma LongerGap(before: string, u: string, text: string)
    ensures before + (u + "\n" + text) + "\n" == before + u + "\n" + text + "\n"
  {
  }

  /** The chunks written below each other are the script. */
  lemma {:induction false} ChunksAreScript(lines: seq<Line>, render: Statement -> string)
    ensures ItemsText(Chunks(lines, render)) == ScriptText(lines, render)
  {
    hide LineText, ItemsText, Lines;
    if lines == [] {
      assert ItemsText([]) == "" by { NoItemsText(); }
    } else {
      var n := |lines| - 1;
      ChunksAreScript(lines[..n], render);
      var before, text := Chunks(lines[..n], render), LineText(lines[n], render);
      if lines[n].Sql? {
        ItemsPush(before, Stmt(text));
      } else if before == [] || before[|before| - 1].Stmt? {
        ItemsPush(before, Gap(text));
      } else {
        var k := |before| - 1;
        assert before == before[..k] + [before[k]];
        ItemsGrow(before[..k], before[k], text);
      }
    }
  }

  lemma NoItemsText()
    ensures ItemsText([]) == ""
  {
  }

  function Rendered(ss: seq<Statement>, render: Statement -> string): seq<string> {
    seq(|ss|, i requires 0 <= i < |ss| => render(ss[i]))
  }

  lemma {:induction false} StatementsPush(items: seq<Item>, item: Item)
    ensures WrittenStatements(items + [item]) == WrittenStatements(items) + if item.Stmt? then [item.text] else []
  {
    if items == [] {
      assert [item][1..] == [];
    } else {
      StatementsPush(items[1..], item);
      assert (items + [item])[1..] == items[1..] + [item];
    }
  }

  /** The statements among the chunks are the statements of the lines, in order. */
  lemma {:induction false} ChunksHoldStatements(lines: seq<Line>, render: Statement -> string)
    ensures WrittenStatements(Chunks(lines, render)) == Rendered(StatementsOf(lines), render)
  {
    hide WrittenStatements, Lines;
    if lines == [] {
      NoStatements();
    } else {
      var n := |lines| - 1;
      ChunksHoldStatements(lines[..n], render);
      var before, text := Chunks(lines[..n], render), LineText(lines[n], render);
      if lines[n].Sql? {
        StatementsPush(before, Stmt(text));
      } else if before == [] || before[|before| - 1].Stmt? {
        StatementsPush(before, Gap(text));
      } else {
        var k := |before| - 1;
        StatementsPush(before[..k], before[k]);
        StatementsPush(before[..k], Gap(Lines(before[k].text, text)));
        assert before == before[..k] + [before[k]];
      }
    }
  }

  lemma NoStatements()
    ensures WrittenStatements([]) == []
  {
  }

  /** Statement texts as the source writes them: read alone, each is one statement that ends what it begins. */
  ghost predicate RendersStatements(ss: seq<Statement>, render: Statement -> string, r: MaskSpec.Rules) {
    forall s :: s in ss ==> OneStatement(render(s), r) && Sealed(render(s), r, 0)
  }

  lemma {:induction false} ChunksAreWellWritten(lines: seq<Line>, render: Statement -> string, r: MaskSpec.Rules)
    requires RendersStatements(StatementsOf(lines), render, r)
    ensures WellWritten(Chunks(lines, render), r)
  {
    hide Sealed, OneStatement, Lines;
    if lines != [] {
      var n := |lines| - 1;
      assert forall s :: s in StatementsOf(lines[..n]) ==> s in StatementsOf(lines);
      assert lines[n].Sql? ==> lines[n].statement in StatementsOf(lines);
      ChunksAreWellWritten(lines[..n], render, r);
      var before, text := Chunks(lines[..n], render), LineText(lines[n], render);
      if lines[n].Sql? {
        StatementBegins(text, r);
        WellWrittenPush(before, Stmt(text), r);
      } else if before == [] || before[|before| - 1].Stmt? {
        WellWrittenPush(before, Gap(text), r);
      } else {
        WellWrittenGrow(before, Lines(before[|before| - 1].text, text), r);
      }
    }
  }

  lemma StatementBegins(u: string, r: MaskSpec.Rules)
    requires OneStatement(u, r)
    ensures u != "" && Text.IsWord(u[0])
  {
  }

  lemma WellWrittenPush(items: seq<Item>, item: Item, r: MaskSpec.Rules)
    requires WellWritten(items, r)
    requires if item.Stmt? then item.text != "" && Text.IsWord(item.text[0]) && Sealed(item.text, r, 0)
             else items == [] || items[|items| - 1].Stmt?
    ensures WellWritten(items + [item], r)
  {
    hide Sealed;
    forall i | 0 <= i < |items| + 1 ensures ItemIsFine(items + [item], r, i) {
      assert i < |items| ==> ItemIsFine(items, r, i);
    }
  }

  lemma WellWrittenGrow(items: seq<Item>, text: string, r: MaskSpec.Rules)
    requires WellWritten(items, r) && items != []
    ensures WellWritten(items[..|items| - 1], r)
    ensures items[|items| - 1].Gap? ==> WellWritten(items[..|items| - 1] + [Gap(text)], r)
  {
    hide Sealed;
    var n := |items| - 1;
    forall i | 0 <= i < n ensures ItemIsFine(items[..n], r, i) {
      assert ItemIsFine(items, r, i);
    }
    if items[n].Gap? {
      assert n > 0 ==> ItemIsFine(items, r, n - 1) && items[..n][n - 1] == items[n - 1];
      forall i | 0 <= i < n + 1 ensures ItemIsFine(items[..n] + [Gap(text)], r, i) {
        assert ItemIsFine(items, r, i);
      }
    }
  }

  // --- how the script is read ---

  /**
   * Read as one text, the script shows each statement as it is read alone and nothing to run between them if and
   * only if each gap is idle as a whole and leaves nothing open for the statement after it.
   */
  lemma ScriptReadsAsWritten(lines: seq<Line>, render: Statement -> string, d: MaskSpec.Driver)
    requires RendersStatements(StatementsOf(lines), render, MaskSpec.DefaultRules(d))
    ensures var r, chunks := MaskSpec.DefaultRules(d), Chunks(lines, render);
            ReadsAsWritten(MaskSpec.Mask(ScriptText(lines, render), r), chunks, r) <==> GapsAreIdle(chunks, r)
  {
    hide Chunks, ScriptText, ItemsText, MaskSpec.Mask, GapsAreIdle, WellWritten, ReadsAsWritten;
    var r := MaskSpec.DefaultRules(d);
    ChunksAreScript(lines, render);
    ChunksAreWellWritten(lines, render, r);
    ReadsIffGapsAreIdle(Chunks(lines, render), r);
  }

  /** Then the splitter finds the written statements, in order, each with the notes before it. */
  lemma SplitterFindsWritten(lines: seq<Line>, render: Statement -> string, d: MaskSpec.Driver)
    requires RendersStatements(StatementsOf(lines), render, MaskSpec.DefaultRules(d))
    requires GapsAreIdle(Chunks(lines, render), MaskSpec.DefaultRules(d))
    ensures Tells(SqlScript.Statements(ScriptText(lines, render), d), Rendered(StatementsOf(lines), render))
  {
    hide Chunks, ScriptText, ItemsText, MaskSpec.Mask, GapsAreIdle, ReadsAsWritten, Tells, OneStatement, Sealed;
    hide SqlScript.Ranges, SqlScript.TextsOf, WrittenStatements;
    var r := MaskSpec.DefaultRules(d);
    ScriptReadsAsWritten(lines, render, d);
    ChunksAreScript(lines, render);
    ChunksHoldStatements(lines, render);
    SplitterFindsStatements(Chunks(lines, render), r);
  }

  // --- notes without a line break ---

  ghost predicate GapsAreComments(items: seq<Item>, r: MaskSpec.Rules) {
    forall i :: 0 <= i < |items| && items[i].Gap? ==> IsComment(items[i].text, r)
  }

  lemma {:induction false} UnbrokenGapsAreComments(lines: seq<Line>, render: Statement -> string, r: MaskSpec.Rules)
    requires !r.keepIdent && forall line :: line in lines && !line.Sql? ==> !HasBreak(line.text)
    ensures GapsAreComments(Chunks(lines, render), r)
  {
    hide IsComment, Lines, HasBreak, GapsAreComments;
    if lines == [] {
      NoGaps(r);
    } else {
      var n := |lines| - 1;
      UnbrokenGapsAreComments(lines[..n], render, r);
      var before, text := Chunks(lines[..n], render), LineText(lines[n], render);
      if lines[n].Sql? {
        CommentsPush(before, Stmt(text), r);
      } else {
        assert !HasBreak(lines[n].text);
        NoteIsComment(lines[n].text, r);
        if before == [] || before[|before| - 1].Stmt? {
          CommentsPush(before, Gap(text), r);
        } else {
          CommentsGrow(before, text, r);
        }
      }
    }
  }

  lemma NoGaps(r: MaskSpec.Rules)
    ensures GapsAreComments([], r)
  {
  }

  lemma CommentsPush(items: seq<Item>, item: Item, r: MaskSpec.Rules)
    requires GapsAreComments(items, r) && (item.Gap? ==> IsComment(item.text, r))
    ensures GapsAreComments(items + [item], r)
  {
    hide IsComment;
  }

  lemma CommentsGrow(items: seq<Item>, text: string, r: MaskSpec.Rules)
    requires !r.keepIdent && GapsAreComments(items, r) && IsComment(text, r) && text != ""
    requires items != [] && items[|items| - 1].Gap?
    ensures var n := |items| - 1; GapsAreComments(items[..n] + [Gap(Lines(items[n].text, text))], r)
  {
    hide IsComment, Lines;
    CommentLines(items[|items| - 1].text, text, r);
  }

  lemma NoteIsComment(text: string, r: MaskSpec.Rules)
    requires !HasBreak(text)
    ensures IsComment("-- " + text, r)
  {
    CommentLine(text, r);
  }

  lemma CommentsAreIdle(items: seq<Item>, r: MaskSpec.Rules)
    requires GapsAreComments(items, r)
    ensures GapsAreIdle(items, r)
  {
    hide Idle, Sealed, Ended;
    forall i | 0 <= i < |items| && items[i].Gap? ensures Idle(items[i].text, r) && Ended(items[i].text, r, 0) {
      CommentIsIdle(items[i].text, r);
    }
  }

  /** If no skipped row shows a key with a line break, every gap is comments, whatever is masked. */
  lemma UnbrokenKeysAreIdle(rows: seq<ExportRow>, o: Options, render: Statement -> string, d: MaskSpec.Driver)
    requires !HasBreak(o.noteBefore) && !HasBreak(o.noteAfter)
    requires forall r :: r in rows && IsSkipped(r, o) ==> !KeyBreaks(r, o.masked)
    ensures GapsAreIdle(Chunks(ScriptLines(rows, o), render), MaskSpec.DefaultRules(d))
  {
    hide ScriptLines, IsSkipped, HasBreak, KeyBreaks, Note, Chunks, GapsAreIdle, GapsAreComments;
    forall r | r in rows && IsSkipped(r, o) ensures !HasBreak(Note(r, o)) {
      NoteBreaks(r, o);
    }
    NotesOfScript(rows, o, s => !HasBreak(s));
    UnbrokenGapsAreComments(ScriptLines(rows, o), render, MaskSpec.DefaultRules(d));
    CommentsAreIdle(Chunks(ScriptLines(rows, o), render), MaskSpec.DefaultRules(d));
  }

  lemma {:induction false} HeadingsHoldNothing(headings: seq<Line>, lines: seq<Line>)
    requires forall line :: line in headings ==> !line.Sql?
    ensures StatementsOf(headings + lines) == StatementsOf(lines)
  {
    if lines != [] {
      var n := |lines| - 1;
      HeadingsHoldNothing(headings, lines[..n]);
      assert (headings + lines)[..|headings| + n] == headings + lines[..n];
    } else if headings != [] {
      HeadingsHoldNothing(headings[..|headings| - 1], []);
      assert headings[..|headings| - 1] + [] == headings[..|headings| - 1] && headings + [] == headings;
    }
  }

  /**
   * If no skipped row shows a key with a line break, the script is split into the written statements, which, run on
   * the generation it starts from, move exactly the rows they are for and leave all others alone, whatever is masked.
   */
  lemma TextMovesWrittenRows(older: Table, newer: Table, pk: seq<string>, rows: seq<ExportRow>, o: Options,
                             render: Statement -> string, d: MaskSpec.Driver)
    requires UniqueKeys(older, pk) && UniqueKeys(newer, pk)
    requires forall i :: 0 <= i < |rows| ==> FaithfulRow(older, newer, pk, rows[i])
    requires forall i, j :: 0 <= i < j < |rows| ==> rows[i].key != rows[j].key
    requires !HasBreak(o.noteBefore) && !HasBreak(o.noteAfter)
    requires forall r :: r in rows && IsSkipped(r, o) ==> !KeyBreaks(r, o.masked)
    requires RendersStatements(StatementsOf(LinesOf(rows, o)), render, MaskSpec.DefaultRules(d))
    ensures var written := StatementsOf(LinesOf(rows, o));
            && Tells(SqlScript.Statements(ScriptText(ScriptLines(rows, o), render), d), Rendered(written, render))
            && ExecAll(From(older, newer, o.direction), written, pk) ==
               Some(Mixed(From(older, newer, o.direction), To(older, newer, o.direction), pk, Written(rows, o)))
  {
    hide IsSkipped, HasBreak, KeyBreaks, Note, Mixed, ExecAll, UniqueKeys, FaithfulRow, Written, Headings, Chunks;
    hide LinesOf, StatementsOf, ScriptText, Rendered, Tells, SqlScript.Statements, GapsAreIdle, RendersStatements;
    HeadingsAreUnbroken(o);
    HeadingsHoldNothing(Headings(o), LinesOf(rows, o));
    UnbrokenKeysAreIdle(rows, o, render, d);
    SplitterFindsWritten(ScriptLines(rows, o), render, d);
    ScriptMovesWrittenRows(older, newer, pk, rows, o);
  }

  // --- keys with a line break ---

  /** A row added with a key, and a masked column that is no key: it gets a note. */
  function NotedRow(key: string): ExportRow {
    ExportRow(Added, map["id" := Value(key)], ["id"], None, Some(map["id" := Value(key), "pin" := Value("1")]), [])
  }

  function NoteOptions(before: string): Options { Options(Forward, {"pin"}, "", PrimaryKey, before, "") }

  lemma RowIsNoted(key: string, before: string)
    ensures var r, o := NotedRow(key), NoteOptions(before); LineOf(r, o) == Some(Skipped(before + ("id=" + key)))
  {
    hide KeyText;
    var r, o := NotedRow(key), NoteOptions(before);
    OneKeyText(r.key);
    assert Note(r, o) == before + ("id=" + key) + "" == before + ("id=" + key);
    assert "pin" in r.after.value.Keys && "pin" in o.masked;
  }

  lemma OneKeyText(key: Record)
    ensures KeyText(["id"], key, {"pin"}) == "id=" + Shown(key, "id", {"pin"})
  {
    assert ["id"][..0] == [] && KeyText([], key, {"pin"}) == "";
    assert "" + "" + KeyPart(key, "id", {"pin"}) == KeyPart(key, "id", {"pin"});
    assert "id" + "=" == "id=";
  }

  /** The note on a key of two lines is a comment with the second line of the key below it. */
  lemma NoteOfTwoLines(before: string, second: string, r: MaskSpec.Rules)
    requires !HasBreak(before)
    ensures "-- " + (before + ("id=" + ("a\n" + second))) == Lines("-- " + (before + "id=a"), second)
    ensures IsComment("-- " + (before + "id=a"), r)
  {
    BreakInSum(before, "id=a");
    assert !HasBreak("id=a");
    NoteIsComment(before + "id=a", r);
    assert "id=" + ("a\n" + second) == "id=a" + "\n" + second;
  }

  /** A row whose note goes on with a statement: none is written for it, and still its note can be run. */
  lemma KeyBreakMakesLiveLine(before: string, render: Statement -> string, d: MaskSpec.Driver)
    requires !HasBreak(before)
    ensures var lines := ScriptLines([NotedRow("a\n" + "DELETE FROM t;")], NoteOptions(before));
            var r := MaskSpec.DefaultRules(d);
            && StatementsOf(lines) == []
            && Chunks(lines, render) == [Gap(Lines("-- " + (before + "id=a"), "DELETE FROM t;"))]
            && !ReadsAsWritten(MaskSpec.Mask(ScriptText(lines, render), r), Chunks(lines, render), r)
  {
    hide MaskSpec.Mask, Lines, IsComment, ScriptText, Idle, Ended, ReadsAsWritten;
    var r := MaskSpec.DefaultRules(d);
    var key, note := "a\n" + "DELETE FROM t;", before + ("id=" + ("a\n" + "DELETE FROM t;"));
    RowIsNoted(key, before);
    OneLine(NotedRow(key), NoteOptions(before), note);
    var lines := ScriptLines([NotedRow(key)], NoteOptions(before));
    OneChunk(lines, note, render);
    NoteOfTwoLines(before, "DELETE FROM t;", r);
    BelowComment("-- " + (before + "id=a"), "DELETE FROM t;", r);
    WordCanRun("DELETE FROM t;", r);
    assert Chunks(lines, render)[0].Gap?;
    ScriptReadsAsWritten(lines, render, d);
  }

  lemma OneLine(r: ExportRow, o: Options, note: string)
    requires o.header == "" && LineOf(r, o) == Some(Skipped(note))
    ensures ScriptLines([r], o) == LinesOf([r], o) == [Skipped(note)] && StatementsOf(LinesOf([r], o)) == []
  {
    hide LineOf, LinesOf, StatementsOf, SkippedIn;
    NothingWritten([r], o);
    LinesPush([r], 0, o);
    CountsPush([], Skipped(note));
    assert [r][..1] == [r] && [] + [Skipped(note)] == [Skipped(note)] && Headings(o) == [];
  }

  lemma OneChunk(lines: seq<Line>, note: string, render: Statement -> string)
    requires lines == [Skipped(note)]
    ensures Chunks(lines, render) == [Gap("-- " + note)]
  {
    assert lines[..0] == [];
  }

  /**
   * A row whose note goes on with an open block comment: the gap is idle and no statement is added, but those behind
   * it are lost. Without an end of a comment in them, nothing in the script can be run.
   */
  lemma KeyBreakHidesStatements(before: string, row: ExportRow, s: Statement, render: Statement -> string,
                                d: MaskSpec.Driver)
    requires !HasBreak(before) && LineOf(row, NoteOptions(before)) == Some(Sql(s))
    requires RendersStatements([s], render, MaskSpec.DefaultRules(d))
    ensures var lines := ScriptLines([NotedRow("a\n" + "/*"), row], NoteOptions(before));
            var r, gap := MaskSpec.DefaultRules(d), Lines("-- " + (before + "id=a"), "/*");
            && StatementsOf(lines) == [s] && Chunks(lines, render) == [Gap(gap), Stmt(render(s))]
            && Idle(gap, r) && !Ended(gap, r, 0)
            && !ReadsAsWritten(MaskSpec.Mask(ScriptText(lines, render), r), Chunks(lines, render), r)
            && (!Text.Occurs("*/", render(s) + "\n") ==> Idle(ScriptText(lines, render), r))
  {
    hide MaskSpec.Mask, Lines, IsComment, ScriptText, Idle, Ended, ReadsAsWritten, Sealed, OneStatement, LineOf;
    hide Text.Occurs;
    var r, o := MaskSpec.DefaultRules(d), NoteOptions(before);
    var key, note := "a\n" + "/*", before + ("id=" + ("a\n" + "/*"));
    RowIsNoted(key, before);
    TwoLines(NotedRow(key), row, o, note, s);
    var lines := ScriptLines([NotedRow(key), row], o);
    TwoChunks(lines, note, s, render);
    NoteOfTwoLines(before, "/*", r);
    var comment := "-- " + (before + "id=a");
    BelowComment(comment, "/*", r);
    OpenComment(r);
    assert Chunks(lines, render)[0].Gap?;
    ScriptReadsAsWritten(lines, render, d);
    if !Text.Occurs("*/", render(s) + "\n") {
      OpenCommentTakesAll(render(s) + "\n", r);
      LinesAre("/*", render(s) + "\n");
      BelowComment(comment, Lines("/*", render(s) + "\n"), r);
      LinesNest(comment, "/*", render(s));
    }
  }

  lemma LinesNest(u: string, v: string, w: string)
    ensures Lines(u, v) + "\n" + w + "\n" == Lines(u, Lines(v, w + "\n"))
  {
  }

  lemma TwoLines(q: ExportRow, r: ExportRow, o: Options, note: string, s: Statement)
    requires o.header == "" && LineOf(q, o) == Some(Skipped(note)) && LineOf(r, o) == Some(Sql(s))
    ensures ScriptLines([q, r], o) == [Skipped(note), Sql(s)] && StatementsOf([Skipped(note), Sql(s)]) == [s]
  {
    hide LineOf, LinesOf, StatementsOf, SkippedIn;
    OneLine(q, o, note);
    LinesPush([q, r], 1, o);
    CountsPush([Skipped(note)], Sql(s));
    assert [q, r][..1] == [q] && [q, r][..2] == [q, r] && [Skipped(note)] + [Sql(s)] == [Skipped(note), Sql(s)];
    assert [] + [s] == [s];
  }

  lemma TwoChunks(lines: seq<Line>, note: string, s: Statement, render: Statement -> string)
    requires lines == [Skipped(note), Sql(s)]
    ensures Chunks(lines, render) == [Gap("-- " + note), Stmt(render(s))]
    ensures ScriptText(lines, render) == "-- " + note + "\n" + render(s) + "\n"
  {
    var first := lines[..1];
    assert first == [Skipped(note)] && first[..0] == [];
    OneChunk(first, note, render);
    assert ScriptText(first[..0], render) == "";
    assert ScriptText(first, render) == "" + ("-- " + note) + "\n" == "-- " + note + "\n";
  }
}
