/** Change scripts between two generations of a table: statements that turn the older into the newer one, or back. */
module TimelapseDml {
  import opened Common

  datatype Cell = Null | Value(text: string)

  type Record = map<string, Cell>

  /** Shown instead of a value of a masked column. */
  const PLACEHOLDER := Value("\U{2022}\U{2022}\U{2022}\U{2022}")

  function Get(r: Record, column: string): Cell { if column in r then r[column] else Null }

  // --- rows of a difference, and their export form ---

  datatype Status = SourceOnly | TargetOnly | Changed

  /** The source is the newer generation, the target the older one. */
  datatype DiffRow = DiffRow(status: Status, source: Option<seq<Cell>>, target: Option<seq<Cell>>,
                             changedColumns: seq<string>)

  datatype DataDiff = DataDiff(columns: seq<string>, primaryKey: seq<string>, rows: seq<DiffRow>)

  datatype Kind = Added | Removed | Altered

  /** `keyColumns` are the columns of `key` in the order they are shown in. */
  datatype ExportRow = ExportRow(kind: Kind, key: Record, keyColumns: seq<string>, before: Option<Record>,
                                 after: Option<Record>, changedColumns: seq<string>)

  predicate MaskedAt(masked: Option<seq<bool>>, i: nat) { masked.Some? && i < |masked.value| && masked.value[i] }

  /** Values by column name; a column named twice keeps its last value. */
  function ToRecord(columns: seq<string>, values: seq<Cell>, masked: Option<seq<bool>>): Record {
    if columns == [] then map[]
    else
      var i := |columns| - 1;
      var v := if MaskedAt(masked, i) then PLACEHOLDER else if i < |values| then values[i] else Null;
      ToRecord(columns[..i], values, masked)[columns[i] := v]
  }

  function KeyOf(r: Record, pk: seq<string>): Record { map c | c in pk :: Get(r, c) }

  /** Each name once, where it comes first. */
  function Distinct(names: seq<string>): seq<string> {
    if names == [] then []
    else
      var n := |names| - 1;
      if names[n] in names[..n] then Distinct(names[..n]) else Distinct(names[..n]) + [names[n]]
  }

  /** `n` is the first position of `name`. */
  predicate StandsFirst(names: seq<string>, name: string, n: nat) {
    n < |names| && names[n] == name && name !in names[..n]
  }

  /** `kept` are names of `names` at their first positions, in order, none left out. */
  predicate FirstsAt(names: seq<string>, kept: seq<string>, at: seq<nat>) {
    && |at| == |kept|
    && (forall i :: 0 <= i < |at| ==> StandsFirst(names, kept[i], at[i]))
    && (forall i, j :: 0 <= i < j < |at| ==> at[i] < at[j])
    && (forall name :: name in names ==> name in kept)
  }

  lemma FirstsStay(names: seq<string>, last: string, kept: seq<string>, at: seq<nat>)
    requires FirstsAt(names, kept, at) && last in names
    ensures FirstsAt(names + [last], kept, at)
  {
    forall i | 0 <= i < |at| ensures StandsFirst(names + [last], kept[i], at[i]) {
      assert (names + [last])[..at[i]] == names[..at[i]];
    }
    hide StandsFirst;
  }

  lemma FirstsPush(names: seq<string>, last: string, kept: seq<string>, at: seq<nat>)
    requires FirstsAt(names, kept, at) && last !in names
    ensures FirstsAt(names + [last], kept + [last], at + [|names|])
  {
    forall i | 0 <= i < |at| ensures StandsFirst(names + [last], kept[i], at[i]) && at[i] < |names| {
      assert (names + [last])[..at[i]] == names[..at[i]];
    }
    assert (names + [last])[..|names|] == names;
    assert StandsFirst(names + [last], last, |names|);
    hide StandsFirst;
  }

  /** Each name stays once, in the order the names first come in. */
  lemma {:induction false} DistinctIsTold(names: seq<string>) returns (at: seq<nat>)
    ensures FirstsAt(names, Distinct(names), at)
  {
    at := [];
    if names != [] {
      var n := |names| - 1;
      at := DistinctIsTold(names[..n]);
      hide FirstsAt;
      assert names == names[..n] + [names[n]];
      if names[n] in names[..n] {
        FirstsStay(names[..n], names[n], Distinct(names[..n]), at);
      } else {
        FirstsPush(names[..n], names[n], Distinct(names[..n]), at);
        at := at + [n];
      }
    }
  }

  function ValuesOf(values: Option<seq<Cell>>): seq<Cell> { if values.Some? then values.value else [] }

  function ExportOf(d: DataDiff, r: DiffRow, masked: Option<seq<bool>>): ExportRow {
    var kind := match r.status case SourceOnly => Added case TargetOnly => Removed case Changed => Altered;
    var before := if kind == Added then None else Some(ToRecord(d.columns, ValuesOf(r.target), masked));
    var after := if kind == Removed then None else Some(ToRecord(d.columns, ValuesOf(r.source), masked));
    var base := if after.Some? then after.value else before.value;
    var changed := if kind == Altered then r.changedColumns else [];
    ExportRow(kind, KeyOf(base, d.primaryKey), Distinct(d.primaryKey), before, after, changed)
  }

  function ExportRows(d: DataDiff, masked: Option<seq<bool>>): seq<ExportRow> {
    seq(|d.rows|, i requires 0 <= i < |d.rows| => ExportOf(d, d.rows[i], masked))
  }

  // --- statements and what they do to a table ---

  datatype Test = IsNull | Equals(value: Cell)

  datatype Statement =
    | Insert(row: Record)
    | Delete(where: map<string, Test>)
    | Update(set_: Record, where: map<string, Test>)

  /** `=` is never true of NULL on either side. */
  predicate Passes(v: Cell, t: Test) {
    match t
    case IsNull => v.Null?
    case Equals(w) => !v.Null? && !w.Null? && v == w
  }

  predicate Matches(r: Record, where: map<string, Test>) { forall c :: c in where ==> Passes(Get(r, c), where[c]) }

  type Table = set<Record>

  /** A statement run on a table; None if an insert breaks the primary key. */
  ghost function Exec(t: Table, s: Statement, pk: seq<string>): Option<Table> {
    match s
    case Insert(row) => if exists r :: r in t && KeyOf(r, pk) == KeyOf(row, pk) then None else Some(t + {row})
    case Delete(where) => Some(set r | r in t && !Matches(r, where))
    case Update(values, where) => Some(set r | r in t :: if Matches(r, where) then r + values else r)
  }

  ghost function ExecAll(t: Table, ss: seq<Statement>, pk: seq<string>): Option<Table> {
    if ss == [] then Some(t)
    else
      var before := ExecAll(t, ss[..|ss| - 1], pk);
      if before.None? then None else Exec(before.value, ss[|ss| - 1], pk)
  }

  // --- building the script ---

  datatype Direction = Forward | Revert

  datatype KeyKind = PrimaryKey | UniqueKey | Rowid

  /**
   * What the script is joined from: a heading, a note about a row no statement could be written for, or a
   * statement. Headings and notes are written after `-- `.
   */
  datatype Line = Heading(text: string) | Skipped(text: string) | Sql(statement: Statement)

  /** A note shows the key text between `noteBefore` and `noteAfter`. */
  datatype Options = Options(direction: Direction, masked: set<string>, header: string, keyKind: KeyKind,
                             noteBefore: string, noteAfter: string)

  const DEFAULT_NOTE := "skipped (masked / no key): "

  datatype Script = Script(lines: seq<Line>, statements: nat, skipped: nat)

  datatype Op = OpInsert | OpDelete | OpUpdate

  function OpOf(r: ExportRow, d: Direction): Op {
    if r.kind == Altered then OpUpdate
    else if (r.kind == Added) == (d == Forward) then OpInsert
    else OpDelete
  }

  function WhereOf(key: Record): map<string, Test> {
    map c | c in key :: if key[c].Null? then IsNull else Equals(key[c])
  }

  /** A key value as a note shows it. */
  function Shown(key: Record, c: string, masked: set<string>): string {
    var v := if c in masked then PLACEHOLDER else Get(key, c);
    if v.Null? then "NULL" else v.text
  }

  function KeyPart(key: Record, c: string, masked: set<string>): string { c + "=" + Shown(key, c, masked) }

  /** The key as `a=1, b=2`. */
  function KeyText(columns: seq<string>, key: Record, masked: set<string>): string {
    if columns == [] then ""
    else
      var n := |columns| - 1;
      KeyText(columns[..n], key, masked) + (if n == 0 then "" else ", ") + KeyPart(key, columns[n], masked)
  }

  function Note(r: ExportRow, o: Options): string {
    o.noteBefore + KeyText(r.keyColumns, r.key, o.masked) + o.noteAfter
  }

  function SetOf(columns: seq<string>, source: Record): Record { map c | c in columns :: Get(source, c) }

  predicate Touches(columns: set<string>, masked: set<string>) { exists c :: c in columns && c in masked }

  function ColumnSet(columns: seq<string>): set<string> { set c | c in columns }

  /** The line for one row; None for an insert the row has no values for. */
  function LineOf(r: ExportRow, o: Options): Option<Line> {
    var side := if o.direction == Forward then r.after else r.before;
    var op := OpOf(r, o.direction);
    if op == OpInsert then
      if side.None? then None
      else if Touches(side.value.Keys, o.masked) then Some(Skipped(Note(r, o)))
      else Some(Sql(Insert(side.value)))
    else if r.key.Keys == {} || Touches(r.key.Keys, o.masked) then Some(Skipped(Note(r, o)))
    else if op == OpDelete then Some(Sql(Delete(WhereOf(r.key))))
    else if side.None? || r.changedColumns == [] || Touches(ColumnSet(r.changedColumns), o.masked) then
      Some(Skipped(Note(r, o)))
    else Some(Sql(Update(SetOf(r.changedColumns, side.value), WhereOf(r.key))))
  }

  function LinesOf(rows: seq<ExportRow>, o: Options): seq<Line> {
    if rows == [] then []
    else
      var line := LineOf(rows[|rows| - 1], o);
      LinesOf(rows[..|rows| - 1], o) + if line.Some? then [line.value] else []
  }

  function StatementsOf(lines: seq<Line>): seq<Statement> {
    if lines == [] then []
    else StatementsOf(lines[..|lines| - 1]) + if lines[|lines| - 1].Sql? then [lines[|lines| - 1].statement] else []
  }

  function SkippedIn(lines: seq<Line>): nat {
    if lines == [] then 0 else SkippedIn(lines[..|lines| - 1]) + if lines[|lines| - 1].Skipped? then 1 else 0
  }

  predicate HasBreak(s: string) { '\n' in s }

  /** The pieces between the line breaks of `s`. */
  function SplitLines(s: string): (pieces: seq<string>)
    ensures pieces != [] && forall i :: 0 <= i < |pieces| ==> !HasBreak(pieces[i])
  {
    if s == "" then [""]
    else
      var n := |s| - 1;
      var before := SplitLines(s[..n]);
      if s[n] == '\n' then before + [""] else before[..|before| - 1] + [before[|before| - 1] + [s[n]]]
  }

  /** The pieces with line breaks between them. */
  function JoinLines(pieces: seq<string>): string
    requires pieces != []
  {
    var n := |pieces| - 1;
    if n == 0 then pieces[0] else JoinLines(pieces[..n]) + "\n" + pieces[n]
  }

  function Extended(pieces: seq<string>, c: char): seq<string>
    requires pieces != []
  {
    var n := |pieces| - 1;
    if c == '\n' then pieces + [""] else pieces[..n] + [pieces[n] + [c]]
  }

  lemma SplitPush(s: string, c: char)
    ensures SplitLines(s + [c]) == Extended(SplitLines(s), c)
  {
    assert (s + [c])[..|s|] == s;
  }

  lemma LastChar(s: string)
    requires s != ""
    ensures s == s[..|s| - 1] + [s[|s| - 1]]
    ensures SplitLines(s) == Extended(SplitLines(s[..|s| - 1]), s[|s| - 1])
    ensures HasBreak(s) <==> HasBreak(s[..|s| - 1]) || s[|s| - 1] == '\n'
  {
    hide SplitLines, Extended;
    var t, c := s[..|s| - 1], s[|s| - 1];
    assert s == t + [c];
    SplitPush(t, c);
    BreakInLast(t, c);
  }

  lemma BreakInLast(t: string, c: char)
    ensures HasBreak(t + [c]) <==> HasBreak(t) || c == '\n'
  {
  }

  /** Splitting at line breaks and putting them back gives the text. */
  lemma {:induction false} JoinOfSplit(s: string)
    ensures JoinLines(SplitLines(s)) == s
  {
    hide SplitLines;
    if s == "" {
      assert SplitLines("") == [""] by { EmptySplit(); }
    } else {
      var n := |s| - 1;
      JoinOfSplit(s[..n]);
      LastChar(s);
      var before := SplitLines(s[..n]);
      assert (before + [""])[..|before|] == before;
      assert Extended(before, s[n])[..|before| - 1] == before[..|before| - 1];
    }
  }

  lemma EmptySplit()
    ensures SplitLines("") == [""]
  {
  }

  /** The heading comment, a line each. */
  function Headings(o: Options): seq<Line> {
    if o.header == "" then []
    else
      var pieces := SplitLines(o.header);
      seq(|pieces|, i requires 0 <= i < |pieces| => Heading(pieces[i]))
  }

  /** A heading is a line of the header, in order, and the header is all of them. */
  lemma HeadingsAreTold(o: Options)
    requires o.header != ""
    ensures var lines := Headings(o);
            && lines != [] && (forall i :: 0 <= i < |lines| ==> lines[i].Heading? && !HasBreak(lines[i].text))
            && JoinLines(seq(|lines|, i requires 0 <= i < |lines| => lines[i].text)) == o.header
  {
    hide SplitLines;
    JoinOfSplit(o.header);
    var lines := Headings(o);
    assert seq(|lines|, i requires 0 <= i < |lines| => lines[i].text) == SplitLines(o.header);
  }

  method BuildTimelapseDml(rows: seq<ExportRow>, o: Options) returns (s: Script)
    ensures o.keyKind == Rowid ==> s == Script([], 0, |rows|)
    ensures o.keyKind != Rowid ==>
              && s.lines == Headings(o) + LinesOf(rows, o)
              && s.statements == |StatementsOf(LinesOf(rows, o))|
              && s.skipped == SkippedIn(LinesOf(rows, o))
  {
    hide LineOf, LinesOf, StatementsOf, SkippedIn;
    if o.keyKind == Rowid {
      return Script([], 0, |rows|);
    }
    NothingWritten(rows, o);
    var lines := Headings(o);
    var statements, skipped := 0, 0;
    for i := 0 to |rows|
      invariant lines == Headings(o) + LinesOf(rows[..i], o)
      invariant statements == |StatementsOf(LinesOf(rows[..i], o))| && skipped == SkippedIn(LinesOf(rows[..i], o))
    {
      LinesPush(rows, i, o);
      var line := WriteRow(rows[i], o);
      if line.None? {
        continue;
      }
      CountsPush(LinesOf(rows[..i], o), line.value);
      lines := lines + [line.value];
      if line.value.Sql? {
        statements := statements + 1;
      } else {
        skipped := skipped + 1;
      }
    }
    assert rows[..|rows|] == rows;
    s := Script(lines, statements, skipped);
  }

  /** The statement for one row, or the note that none can be written. */
  method WriteRow(r: ExportRow, o: Options) returns (line: Option<Line>)
    ensures line == LineOf(r, o) && (line.Some? ==> !line.value.Heading?)
  {
    hide Note, WhereOf, SetOf, Touches, ColumnSet;
    var op := OpOf(r, o.direction);
    var side := if o.direction == Forward then r.after else r.before;
    if op == OpInsert {
      if side.None? {
        return None;
      }
      if Touches(side.value.Keys, o.masked) {
        return Some(Skipped(Note(r, o)));
      }
      return Some(Sql(Insert(side.value)));
    }
    if r.key.Keys == {} || Touches(r.key.Keys, o.masked) {
      return Some(Skipped(Note(r, o)));
    }
    var where := WhereOf(r.key);
    if op == OpDelete {
      return Some(Sql(Delete(where)));
    }
    if side.None? || r.changedColumns == [] || Touches(ColumnSet(r.changedColumns), o.masked) {
      return Some(Skipped(Note(r, o)));
    }
    line := Some(Sql(Update(SetOf(r.changedColumns, side.value), where)));
  }

  lemma NothingWritten(rows: seq<ExportRow>, o: Options)
    ensures LinesOf(rows[..0], o) == [] && StatementsOf([]) == [] && SkippedIn([]) == 0
  {
  }

  lemma LinesPush(rows: seq<ExportRow>, i: nat, o: Options)
    requires i < |rows|
    ensures LinesOf(rows[..i + 1], o) ==
            if LineOf(rows[i], o).Some? then LinesOf(rows[..i], o) + [LineOf(rows[i], o).value]
            else LinesOf(rows[..i], o)
  {
    hide LineOf;
    assert rows[..i + 1][..i] == rows[..i];
  }

  lemma CountsPush(lines: seq<Line>, line: Line)
    ensures StatementsOf(lines + [line]) ==
            if line.Sql? then StatementsOf(lines) + [line.statement] else StatementsOf(lines)
    ensures SkippedIn(lines + [line]) == SkippedIn(lines) + if line.Skipped? then 1 else 0
  {
    assert (lines + [line])[..|lines|] == lines;
  }

  // --- faithful differences ---

  ghost predicate UniqueKeys(t: Table, pk: seq<string>) {
    forall r, q :: r in t && q in t && KeyOf(r, pk) == KeyOf(q, pk) ==> r == q
  }

  /** A row of a difference between `older` and `newer`, in export form and before masking. */
  ghost predicate FaithfulRow(older: Table, newer: Table, pk: seq<string>, r: ExportRow) {
    && (r.before.Some? ==> r.before.value in older && KeyOf(r.before.value, pk) == r.key)
    && (r.after.Some? ==> r.after.value in newer && KeyOf(r.after.value, pk) == r.key)
    && match r.kind
       case Added => r.after.Some? && r.before.None? && !HasKey(older, pk, r.key)
       case Removed => r.before.Some? && r.after.None? && !HasKey(newer, pk, r.key)
       case Altered =>
         && r.before.Some? && r.after.Some? && r.before.value.Keys == r.after.value.Keys
         && r.changedColumns != [] && (forall c :: c in r.changedColumns ==> c in r.after.value)
         && (forall c :: c in r.after.value && c !in r.changedColumns ==> r.before.value[c] == r.after.value[c])
  }

  ghost predicate HasKey(t: Table, pk: seq<string>, key: Record) { exists r :: r in t && KeyOf(r, pk) == key }

  /** Every row that differs is in the difference, once. */
  ghost predicate FaithfulDiff(older: Table, newer: Table, pk: seq<string>, rows: seq<ExportRow>) {
    && UniqueKeys(older, pk) && UniqueKeys(newer, pk)
    && (forall i :: 0 <= i < |rows| ==> FaithfulRow(older, newer, pk, rows[i]))
    && (forall i, j :: 0 <= i < j < |rows| ==> rows[i].key != rows[j].key)
    && (forall r :: (r in older && r !in newer) || (r in newer && r !in older) ==> KeyOf(r, pk) in KeysOf(rows))
  }

  function KeysOf(rows: seq<ExportRow>): set<Record> { set r | r in rows :: r.key }

  /** The older table with the rows of some keys as the newer one has them. */
  ghost function Mixed(older: Table, newer: Table, pk: seq<string>, keys: set<Record>): Table {
    (set r | r in older && KeyOf(r, pk) !in keys) + (set r | r in newer && KeyOf(r, pk) in keys)
  }

  /** The keys of the rows a statement is written for. */
  function Written(rows: seq<ExportRow>, o: Options): set<Record> {
    set r | r in rows && LineOf(r, o).Some? && LineOf(r, o).value.Sql? :: r.key
  }

  lemma WhereFindsKey(r: Record, pk: seq<string>, key: Record, q: Record)
    requires key == KeyOf(q, pk)
    ensures Matches(r, WhereOf(key)) <==> KeyOf(r, pk) == key
  {
    if Matches(r, WhereOf(key)) {
      forall c | c in pk ensures Get(r, c) == key[c] {
        assert c in WhereOf(key);
      }
    }
    if KeyOf(r, pk) == key {
      forall c | c in WhereOf(key) ensures Passes(Get(r, c), WhereOf(key)[c]) {
        assert KeyOf(r, pk)[c] == key[c];
      }
    }
  }

  lemma InsertStep(older: Table, newer: Table, pk: seq<string>, keys: set<Record>, row: Record)
    requires UniqueKeys(newer, pk) && row in newer && KeyOf(row, pk) !in keys && !HasKey(older, pk, KeyOf(row, pk))
    ensures Exec(Mixed(older, newer, pk, keys), Insert(row), pk) ==
            Some(Mixed(older, newer, pk, keys + {KeyOf(row, pk)}))
  {
    hide KeyOf;
    assert Mixed(older, newer, pk, keys) + {row} == Mixed(older, newer, pk, keys + {KeyOf(row, pk)});
  }

  lemma DeleteStep(older: Table, newer: Table, pk: seq<string>, keys: set<Record>, row: Record)
    requires row in older && KeyOf(row, pk) !in keys && !HasKey(newer, pk, KeyOf(row, pk))
    ensures Exec(Mixed(older, newer, pk, keys), Delete(WhereOf(KeyOf(row, pk))), pk) ==
            Some(Mixed(older, newer, pk, keys + {KeyOf(row, pk)}))
  {
    hide KeyOf, WhereOf, Matches;
    forall r: Record ensures Matches(r, WhereOf(KeyOf(row, pk))) <==> KeyOf(r, pk) == KeyOf(row, pk) {
      WhereFindsKey(r, pk, KeyOf(row, pk), row);
    }
    var t := Mixed(older, newer, pk, keys);
    assert (set r | r in t && !Matches(r, WhereOf(KeyOf(row, pk)))) == Mixed(older, newer, pk, keys + {KeyOf(row, pk)});
  }

  lemma UpdateStep(older: Table, newer: Table, pk: seq<string>, keys: set<Record>, values: Record, o: Record, n: Record)
    requires UniqueKeys(older, pk) && UniqueKeys(newer, pk)
    requires o in older && n in newer && KeyOf(o, pk) == KeyOf(n, pk) && KeyOf(o, pk) !in keys && o + values == n
    ensures Exec(Mixed(older, newer, pk, keys), Update(values, WhereOf(KeyOf(o, pk))), pk) ==
            Some(Mixed(older, newer, pk, keys + {KeyOf(o, pk)}))
  {
    hide KeyOf, WhereOf, Matches;
    var key := KeyOf(o, pk);
    forall r: Record ensures Matches(r, WhereOf(key)) <==> KeyOf(r, pk) == key {
      WhereFindsKey(r, pk, key, o);
    }
    var t, u := Mixed(older, newer, pk, keys), Mixed(older, newer, pk, keys + {key});
    var done := set r | r in t :: if Matches(r, WhereOf(key)) then r + values else r;
    forall r ensures r in done <==> r in u {
      if r in u {
        if r == n {
          assert o in t && Matches(o, WhereOf(key));
        } else {
          assert r in t && !Matches(r, WhereOf(key));
        }
      }
      if r in done {
        var q :| q in t && r == if Matches(q, WhereOf(key)) then q + values else q;
      }
    }
    assert done == u;
  }

  lemma UpdateMakesNewer(r: ExportRow, older: Table, newer: Table, pk: seq<string>)
    requires FaithfulRow(older, newer, pk, r) && r.kind == Altered
    ensures r.before.value + SetOf(r.changedColumns, r.after.value) == r.after.value
    ensures r.after.value + SetOf(r.changedColumns, r.before.value) == r.before.value
  {
    hide KeyOf;
    assert SetOf(r.changedColumns, r.after.value).Keys <= r.after.value.Keys;
    assert SetOf(r.changedColumns, r.before.value).Keys <= r.before.value.Keys;
  }

  /** What a statement of the forward script does to a table that has the rows of some other keys already. */
  lemma ForwardStep(older: Table, newer: Table, pk: seq<string>, r: ExportRow, o: Options, keys: set<Record>)
    requires UniqueKeys(older, pk) && UniqueKeys(newer, pk) && FaithfulRow(older, newer, pk, r) && r.key !in keys
    requires o.direction == Forward && LineOf(r, o).Some? && LineOf(r, o).value.Sql?
    ensures Exec(Mixed(older, newer, pk, keys), LineOf(r, o).value.statement, pk) ==
            Some(Mixed(older, newer, pk, keys + {r.key}))
  {
    hide KeyOf, WhereOf, Mixed, Exec, HasKey, UniqueKeys, SetOf, Touches;
    match r.kind {
      case Added => InsertStep(older, newer, pk, keys, r.after.value);
      case Removed => DeleteStep(older, newer, pk, keys, r.before.value);
      case Altered =>
        UpdateMakesNewer(r, older, newer, pk);
        UpdateStep(older, newer, pk, keys, SetOf(r.changedColumns, r.after.value), r.before.value, r.after.value);
    }
  }

  lemma RevertStep(older: Table, newer: Table, pk: seq<string>, r: ExportRow, o: Options, keys: set<Record>)
    requires UniqueKeys(older, pk) && UniqueKeys(newer, pk) && FaithfulRow(older, newer, pk, r) && r.key !in keys
    requires o.direction == Revert && LineOf(r, o).Some? && LineOf(r, o).value.Sql?
    ensures Exec(Mixed(newer, older, pk, keys), LineOf(r, o).value.statement, pk) ==
            Some(Mixed(newer, older, pk, keys + {r.key}))
  {
    hide KeyOf, WhereOf, Mixed, Exec, HasKey, UniqueKeys, SetOf, Touches;
    match r.kind {
      case Added => DeleteStep(newer, older, pk, keys, r.after.value);
      case Removed => InsertStep(newer, older, pk, keys, r.before.value);
      case Altered =>
        UpdateMakesNewer(r, older, newer, pk);
        UpdateStep(newer, older, pk, keys, SetOf(r.changedColumns, r.before.value), r.after.value, r.before.value);
    }
  }

  ghost function From(older: Table, newer: Table, d: Direction): Table { if d == Forward then older else newer }

  ghost function To(older: Table, newer: Table, d: Direction): Table { if d == Forward then newer else older }

  /**
   * Run on the generation it starts from, the script never breaks the primary key, moves exactly the rows it has a
   * statement for to the other generation, and leaves every other row alone, whatever columns are masked.
   */
  lemma {:induction false} ScriptMovesWrittenRows(older: Table, newer: Table, pk: seq<string>, rows: seq<ExportRow>,
                                                  o: Options)
    requires UniqueKeys(older, pk) && UniqueKeys(newer, pk)
    requires forall i :: 0 <= i < |rows| ==> FaithfulRow(older, newer, pk, rows[i])
    requires forall i, j :: 0 <= i < j < |rows| ==> rows[i].key != rows[j].key
    ensures ExecAll(From(older, newer, o.direction), StatementsOf(LinesOf(rows, o)), pk) ==
            Some(Mixed(From(older, newer, o.direction), To(older, newer, o.direction), pk, Written(rows, o)))
  {
    hide FaithfulRow, UniqueKeys, KeyOf, LineOf, Exec, Mixed, LinesOf, StatementsOf;
    var a, b := From(older, newer, o.direction), To(older, newer, o.direction);
    if rows == [] {
      NothingWritten(rows, o);
      assert rows[..0] == rows && Written(rows, o) == {};
      NothingMixed(a, b, pk);
    } else {
      var n := |rows| - 1;
      ScriptMovesWrittenRows(older, newer, pk, rows[..n], o);
      WrittenPush(rows, o);
      var line := LineOf(rows[n], o);
      if line.Some? {
        CountsPush(LinesOf(rows[..n], o), line.value);
        if line.value.Sql? {
          assert rows[n].key !in Written(rows[..n], o);
          hide Written;
          ExecPush(a, StatementsOf(LinesOf(rows[..n], o)), line.value.statement, pk);
          if o.direction == Forward {
            ForwardStep(older, newer, pk, rows[n], o, Written(rows[..n], o));
          } else {
            RevertStep(older, newer, pk, rows[n], o, Written(rows[..n], o));
          }
        }
      }
    }
  }

  lemma NothingMixed(a: Table, b: Table, pk: seq<string>)
    ensures Mixed(a, b, pk, {}) == a
  {
  }

  lemma ExecPush(t: Table, ss: seq<Statement>, s: Statement, pk: seq<string>)
    ensures ExecAll(t, ss, pk).Some? ==> ExecAll(t, ss + [s], pk) == Exec(ExecAll(t, ss, pk).value, s, pk)
  {
    hide Exec;
    assert (ss + [s])[..|ss|] == ss;
  }

  lemma WrittenPush(rows: seq<ExportRow>, o: Options)
    requires rows != []
    ensures var n := |rows| - 1;
            var line := LineOf(rows[n], o);
            && Written(rows, o) ==
               (if line.Some? && line.value.Sql? then Written(rows[..n], o) + {rows[n].key} else Written(rows[..n], o))
            && LinesOf(rows, o) == (if line.Some? then LinesOf(rows[..n], o) + [line.value] else LinesOf(rows[..n], o))
  {
    hide LineOf;
    var n := |rows| - 1;
    assert rows == rows[..n] + [rows[n]];
    forall r ensures r in rows <==> r in rows[..n] || r == rows[n] {
    }
  }

  /** With keys and nothing masked every row of the difference gets a statement. */
  lemma {:induction false} UnmaskedWritesAll(older: Table, newer: Table, pk: seq<string>, rows: seq<ExportRow>,
                                             o: Options)
    requires pk != [] && o.masked == {} && forall i :: 0 <= i < |rows| ==> FaithfulRow(older, newer, pk, rows[i])
    ensures Written(rows, o) == KeysOf(rows) && SkippedIn(LinesOf(rows, o)) == 0 &&
            |StatementsOf(LinesOf(rows, o))| == |rows|
  {
    hide LineOf, FaithfulRow, Written, KeysOf, LinesOf, StatementsOf, SkippedIn;
    NothingWritten(rows, o);
    KeysPush(rows, o);
    if rows == [] {
      assert rows[..0] == rows;
    } else {
      var n := |rows| - 1;
      UnmaskedWritesAll(older, newer, pk, rows[..n], o);
      WrittenPush(rows, o);
      UnmaskedRowIsWritten(older, newer, pk, rows[n], o);
      CountsPush(LinesOf(rows[..n], o), LineOf(rows[n], o).value);
    }
  }

  lemma KeysPush(rows: seq<ExportRow>, o: Options)
    ensures rows == [] ==> KeysOf(rows) == {} == Written(rows, o)
    ensures rows != [] ==> KeysOf(rows) == KeysOf(rows[..|rows| - 1]) + {rows[|rows| - 1].key}
  {
    hide LineOf;
    if rows != [] {
      var n := |rows| - 1;
      assert rows == rows[..n] + [rows[n]];
      forall r ensures r in rows <==> r in rows[..n] || r == rows[n] {
      }
    }
  }

  lemma UnmaskedRowIsWritten(older: Table, newer: Table, pk: seq<string>, r: ExportRow, o: Options)
    requires pk != [] && o.masked == {} && FaithfulRow(older, newer, pk, r)
    ensures LineOf(r, o).Some? && LineOf(r, o).value.Sql?
  {
    assert pk[0] in r.key by {
      assert r.key == KeyOf(if r.before.Some? then r.before.value else r.after.value, pk);
    }
  }

  /** The whole difference applied moves one generation to the other. */
  lemma AllMixedIsNewer(older: Table, newer: Table, pk: seq<string>, rows: seq<ExportRow>)
    requires FaithfulDiff(older, newer, pk, rows)
    ensures Mixed(older, newer, pk, KeysOf(rows)) == newer && Mixed(newer, older, pk, KeysOf(rows)) == older
  {
    hide KeyOf, UniqueKeys, KeysOf, FaithfulRow;
  }

  /**
   * Without masked columns the forward script turns the older generation into the newer one, and the revert script
   * turns the newer one back into the older: each is the other's inverse on these tables.
   */
  lemma ScriptsAreInverse(older: Table, newer: Table, pk: seq<string>, rows: seq<ExportRow>, o: Options)
    requires pk != [] && o.masked == {} && FaithfulDiff(older, newer, pk, rows)
    ensures ExecAll(older, StatementsOf(LinesOf(rows, o.(direction := Forward))), pk) == Some(newer)
    ensures ExecAll(newer, StatementsOf(LinesOf(rows, o.(direction := Revert))), pk) == Some(older)
  {
    hide Mixed, KeysOf, Written, LinesOf, StatementsOf, SkippedIn, UniqueKeys, FaithfulRow, ExecAll;
    AllMixedIsNewer(older, newer, pk, rows);
    ScriptMovesWrittenRows(older, newer, pk, rows, o.(direction := Forward));
    ScriptMovesWrittenRows(older, newer, pk, rows, o.(direction := Revert));
    UnmaskedWritesAll(older, newer, pk, rows, o.(direction := Forward));
    UnmaskedWritesAll(older, newer, pk, rows, o.(direction := Revert));
  }

  // --- masking ---

  predicate Complete(r: ExportRow) {
    match r.kind
    case Added => r.after.Some?
    case Removed => r.before.Some?
    case Altered => r.before.Some? && r.after.Some?
  }

  /** Every row with the values it needs gets a statement or a note. */
  lemma {:induction false} EveryRowIsCounted(rows: seq<ExportRow>, o: Options)
    requires forall i :: 0 <= i < |rows| ==> Complete(rows[i])
    ensures |StatementsOf(LinesOf(rows, o))| + SkippedIn(LinesOf(rows, o)) == |rows|
  {
    if rows != [] {
      var n := |rows| - 1;
      EveryRowIsCounted(rows[..n], o);
      CompleteRowHasLine(rows[n], o);
      WrittenPush(rows, o);
      hide LineOf, LinesOf, Written, Complete;
      CountsPush(LinesOf(rows[..n], o), LineOf(rows[n], o).value);
    }
  }

  lemma CompleteRowHasLine(r: ExportRow, o: Options)
    ensures Complete(r) ==> LineOf(r, o).Some? && !LineOf(r, o).value.Heading?
  {
  }

  /** The values a row is inserted or updated with: those of the generation the script leads to. */
  function Aim(r: ExportRow, d: Direction): Option<Record> { match d case Forward => r.after case Revert => r.before }

  predicate IsInsert(r: ExportRow, d: Direction) {
    (r.kind == Added && d == Forward) || (r.kind == Removed && d == Revert)
  }

  /**
   * A statement can be written for a row: for an insert, if its values are there and none of their columns is masked;
   * else if it has a key with no masked column and, for an update, its values are there and some columns changed, none
   * of them masked. Other masked columns do not matter.
   */
  predicate MayWrite(r: ExportRow, o: Options) {
    if IsInsert(r, o.direction) then
      Aim(r, o.direction).Some? && forall c :: c in Aim(r, o.direction).value ==> c !in o.masked
    else
      && r.key != map[] && (forall c :: c in r.key ==> c !in o.masked)
      && (r.kind == Altered ==>
            Aim(r, o.direction).Some? && r.changedColumns != [] && forall c :: c in r.changedColumns ==> c !in o.masked)
  }

  lemma LineIsStatement(r: ExportRow, o: Options)
    ensures MayWrite(r, o) <==> LineOf(r, o).Some? && LineOf(r, o).value.Sql?
  {
    hide Note, WhereOf, SetOf;
    assert r.key.Keys == {} <==> r.key == map[];
    forall c ensures c in ColumnSet(r.changedColumns) <==> c in r.changedColumns {
    }
  }

  /** Exactly the rows a statement can be written for get one, and the script counts them, whatever is masked. */
  lemma RowsWithStatements(rows: seq<ExportRow>, o: Options)
    ensures Written(rows, o) == set r | r in rows && MayWrite(r, o) :: r.key
    ensures |StatementsOf(LinesOf(rows, o))| == |set i: nat | i < |rows| && MayWrite(rows[i], o)|
  {
    hide LineOf, MayWrite;
    forall r ensures MayWrite(r, o) <==> LineOf(r, o).Some? && LineOf(r, o).value.Sql? {
      LineIsStatement(r, o);
    }
    CountRows(rows, o);
  }

  lemma {:induction false} CountRows(rows: seq<ExportRow>, o: Options)
    ensures |StatementsOf(LinesOf(rows, o))| == |set i: nat | i < |rows| && MayWrite(rows[i], o)|
  {
    hide LineOf, MayWrite, LinesOf, StatementsOf, SkippedIn;
    NothingWritten(rows, o);
    if rows == [] {
      assert rows[..0] == rows;
    } else {
      var n := |rows| - 1;
      CountRows(rows[..n], o);
      WrittenPush(rows, o);
      LineIsStatement(rows[n], o);
      if LineOf(rows[n], o).Some? {
        CountsPush(LinesOf(rows[..n], o), LineOf(rows[n], o).value);
      }
      CountPush(rows, o);
    }
  }

  lemma CountPush(rows: seq<ExportRow>, o: Options)
    requires rows != []
    ensures var n := |rows| - 1;
            |set i: nat | i < |rows| && MayWrite(rows[i], o)| ==
            |set i: nat | i < n && MayWrite(rows[..n][i], o)| + if MayWrite(rows[n], o) then 1 else 0
  {
    hide MayWrite;
    var n := |rows| - 1;
    var all := set i: nat | i < |rows| && MayWrite(rows[i], o);
    var before := set i: nat | i < n && MayWrite(rows[..n][i], o);
    assert all == if MayWrite(rows[n], o) then before + {n} else before;
  }

  predicate SameOutside(a: Record, b: Record, masked: set<string>) {
    a.Keys == b.Keys && forall c :: c in a && c !in masked ==> a[c] == b[c]
  }

  predicate SameSide(a: Option<Record>, b: Option<Record>, masked: set<string>) {
    if a.None? then b.None? else b.Some? && SameOutside(a.value, b.value, masked)
  }

  /** Two rows that differ only in the values of masked columns. */
  predicate Alike(r: ExportRow, q: ExportRow, masked: set<string>) {
    && r.kind == q.kind && r.changedColumns == q.changedColumns
    && r.keyColumns == q.keyColumns && SameOutside(r.key, q.key, masked)
    && SameSide(r.before, q.before, masked) && SameSide(r.after, q.after, masked)
    && (r.before.Some? ==> forall c :: c in r.changedColumns ==> c in r.before.value)
    && (r.after.Some? ==> forall c :: c in r.changedColumns ==> c in r.after.value)
  }

  /** Masked values reach neither a statement nor a note: the script does not depend on them. */
  lemma {:induction false} ScriptHidesMaskedValues(rows: seq<ExportRow>, others: seq<ExportRow>, o: Options)
    requires |rows| == |others| && forall i :: 0 <= i < |rows| ==> Alike(rows[i], others[i], o.masked)
    ensures LinesOf(rows, o) == LinesOf(others, o)
  {
    if rows != [] {
      var n := |rows| - 1;
      ScriptHidesMaskedValues(rows[..n], others[..n], o);
      LineHidesMaskedValues(rows[n], others[n], o);
    }
  }

  lemma {:induction false} KeyTextHidesMasked(columns: seq<string>, a: Record, b: Record, masked: set<string>)
    requires SameOutside(a, b, masked)
    ensures KeyText(columns, a, masked) == KeyText(columns, b, masked)
  {
    if columns != [] {
      KeyTextHidesMasked(columns[..|columns| - 1], a, b, masked);
    }
  }

  lemma LineHidesMaskedValues(r: ExportRow, q: ExportRow, o: Options)
    requires Alike(r, q, o.masked)
    ensures LineOf(r, o) == LineOf(q, o)
  {
    hide KeyText;
    KeyTextHidesMasked(r.keyColumns, r.key, q.key, o.masked);
    if !Touches(r.key.Keys, o.masked) {
      UntouchedIsSame(r.key, q.key, o.masked);
    }
    var a := if o.direction == Forward then r.after else r.before;
    var b := if o.direction == Forward then q.after else q.before;
    if a.Some? && !Touches(a.value.Keys, o.masked) {
      UntouchedIsSame(a.value, b.value, o.masked);
    }
    if a.Some? && !Touches(ColumnSet(r.changedColumns), o.masked) {
      UntouchedSetIsSame(r.changedColumns, a.value, b.value, o.masked);
    }
  }

  lemma UntouchedIsSame(a: Record, b: Record, masked: set<string>)
    requires SameOutside(a, b, masked) && !Touches(a.Keys, masked)
    ensures a == b
  {
  }

  lemma UntouchedSetIsSame(columns: seq<string>, a: Record, b: Record, masked: set<string>)
    requires SameOutside(a, b, masked) && !Touches(ColumnSet(columns), masked)
    ensures SetOf(columns, a) == SetOf(columns, b)
  {
    forall c | c in columns ensures Get(a, c) == Get(b, c) {
      assert c in ColumnSet(columns);
    }
  }

  // --- export ---

  ghost predicate SameUnmasked(a: seq<Cell>, b: seq<Cell>, masked: Option<seq<bool>>) {
    forall i: nat :: !MaskedAt(masked, i) ==> (if i < |a| then a[i] else Null) == (if i < |b| then b[i] else Null)
  }

  lemma {:induction false} RecordHidesMaskedValues(columns: seq<string>, a: seq<Cell>, b: seq<Cell>,
                                                   masked: Option<seq<bool>>)
    requires SameUnmasked(a, b, masked)
    ensures ToRecord(columns, a, masked) == ToRecord(columns, b, masked)
  {
    if columns != [] {
      RecordHidesMaskedValues(columns[..|columns| - 1], a, b, masked);
    }
  }

  /**
   * The exported rows do not depend on the values of masked columns, keys included; that a column changed still shows.
   */
  lemma ExportHidesMaskedValues(d: DataDiff, r: DiffRow, q: DiffRow, masked: Option<seq<bool>>)
    requires r.status == q.status && r.changedColumns == q.changedColumns
    requires SameUnmasked(ValuesOf(r.source), ValuesOf(q.source), masked) &&
             SameUnmasked(ValuesOf(r.target), ValuesOf(q.target), masked)
    ensures ExportOf(d, r, masked) == ExportOf(d, q, masked)
  {
    RecordHidesMaskedValues(d.columns, ValuesOf(r.source), ValuesOf(q.source), masked);
    RecordHidesMaskedValues(d.columns, ValuesOf(r.target), ValuesOf(q.target), masked);
  }

  /** A column shows its value unless it is masked; where a name stands twice, the last one counts. */
  lemma {:induction false} RecordShowsValues(columns: seq<string>, values: seq<Cell>, masked: Option<seq<bool>>, i: nat)
    requires i < |columns| && forall j :: i < j < |columns| ==> columns[j] != columns[i]
    ensures var record := ToRecord(columns, values, masked);
            && columns[i] in record
            && record[columns[i]] ==
               (if masked.Some? && i < |masked.value| && masked.value[i] then PLACEHOLDER
                else if i < |values| then values[i] else Null)
  {
    if i < |columns| - 1 {
      RecordShowsValues(columns[..|columns| - 1], values, masked, i);
    }
  }

  /** The value a side of a row shows in column `i`. */
  function ShownValue(values: Option<seq<Cell>>, masked: Option<seq<bool>>, i: nat): Cell {
    if masked.Some? && i < |masked.value| && masked.value[i] then PLACEHOLDER
    else match values case None => Null case Some(v) => if i < |v| then v[i] else Null
  }

  /** `side` has the values of a row's side, column by column. */
  ghost predicate ShowsSide(side: Option<Record>, columns: seq<string>, values: Option<seq<Cell>>,
                            masked: Option<seq<bool>>)
  {
    side.Some? &&
    forall i :: 0 <= i < |columns| && (forall j :: i < j < |columns| ==> columns[j] != columns[i]) ==>
      columns[i] in side.value && side.value[columns[i]] == ShownValue(values, masked, i)
  }

  lemma RecordShowsSide(columns: seq<string>, values: Option<seq<Cell>>, masked: Option<seq<bool>>)
    ensures ShowsSide(Some(ToRecord(columns, ValuesOf(values), masked)), columns, values, masked)
  {
    hide ToRecord;
    forall i | 0 <= i < |columns| && (forall j :: i < j < |columns| ==> columns[j] != columns[i])
      ensures columns[i] in ToRecord(columns, ValuesOf(values), masked)
      ensures ToRecord(columns, ValuesOf(values), masked)[columns[i]] == ShownValue(values, masked, i)
    {
      RecordShowsValues(columns, ValuesOf(values), masked, i);
    }
  }

  /**
   * An exported row: added rows show their newer values, removed rows their older ones, changed rows both and the
   * columns that changed; masked columns show the placeholder; the key is read off the newer values if there are any.
   */
  lemma ExportIsTold(d: DataDiff, r: DiffRow, masked: Option<seq<bool>>)
    ensures var e := ExportOf(d, r, masked);
            && (match r.status
                case SourceOnly => e.kind == Added && e.before.None? && ShowsSide(e.after, d.columns, r.source, masked)
                case TargetOnly => e.kind == Removed && e.after.None? &&
                                   ShowsSide(e.before, d.columns, r.target, masked)
                case Changed =>
                  && e.kind == Altered && ShowsSide(e.before, d.columns, r.target, masked)
                  && ShowsSide(e.after, d.columns, r.source, masked))
            && e.changedColumns == (if r.status == Changed then r.changedColumns else [])
            && forall c :: c in d.primaryKey ==>
                 c in e.key && e.key[c] == Get(if e.after.Some? then e.after.value else e.before.value, c)
  {
    hide ToRecord, ShowsSide, Distinct;
    RecordShowsSide(d.columns, r.source, masked);
    RecordShowsSide(d.columns, r.target, masked);
  }

  /** The exported rows are always complete, so none is dropped without a note. */
  lemma ExportIsComplete(d: DataDiff, masked: Option<seq<bool>>, o: Options)
    ensures forall i :: 0 <= i < |d.rows| ==> Complete(ExportRows(d, masked)[i])
    ensures var lines := LinesOf(ExportRows(d, masked), o); |StatementsOf(lines)| + SkippedIn(lines) == |d.rows|
  {
    EveryRowIsCounted(ExportRows(d, masked), o);
  }

  function RecordOf(d: DataDiff, values: Option<seq<Cell>>): Record { ToRecord(d.columns, ValuesOf(values), None) }

  /** A row of a difference as the backend sends it: the newer values as source, the older ones as target. */
  ghost predicate FaithfulDiffRow(older: Table, newer: Table, d: DataDiff, r: DiffRow) {
    var s, t, pk := RecordOf(d, r.source), RecordOf(d, r.target), d.primaryKey;
    match r.status
    case SourceOnly => s in newer && !HasKey(older, pk, KeyOf(s, pk))
    case TargetOnly => t in older && !HasKey(newer, pk, KeyOf(t, pk))
    case Changed =>
      && s in newer && t in older && KeyOf(s, pk) == KeyOf(t, pk) && r.changedColumns != []
      && (forall c :: c in r.changedColumns <==> c in d.columns && Get(s, c) != Get(t, c))
  }

  function DiffKey(d: DataDiff, r: DiffRow): Record {
    KeyOf(RecordOf(d, if r.status == TargetOnly then r.target else r.source), d.primaryKey)
  }

  ghost predicate FaithfulDataDiff(older: Table, newer: Table, d: DataDiff) {
    && UniqueKeys(older, d.primaryKey) && UniqueKeys(newer, d.primaryKey)
    && (forall i :: 0 <= i < |d.rows| ==> FaithfulDiffRow(older, newer, d, d.rows[i]))
    && (forall i, j :: 0 <= i < j < |d.rows| ==> DiffKey(d, d.rows[i]) != DiffKey(d, d.rows[j]))
    && (forall r :: (r in older && r !in newer) || (r in newer && r !in older) ==>
          exists i :: 0 <= i < |d.rows| && DiffKey(d, d.rows[i]) == KeyOf(r, d.primaryKey))
  }

  lemma {:induction false} RecordColumns(columns: seq<string>, values: seq<Cell>)
    ensures forall c :: c in ToRecord(columns, values, None) <==> c in columns
  {
    if columns != [] {
      RecordColumns(columns[..|columns| - 1], values);
      assert columns == columns[..|columns| - 1] + [columns[|columns| - 1]];
    }
  }

  lemma ExportedRowIsFaithful(older: Table, newer: Table, d: DataDiff, r: DiffRow)
    requires FaithfulDiffRow(older, newer, d, r)
    ensures FaithfulRow(older, newer, d.primaryKey, ExportOf(d, r, None)) && ExportOf(d, r, None).key == DiffKey(d, r)
  {
    hide KeyOf, HasKey, ToRecord;
    RecordColumns(d.columns, ValuesOf(r.source));
    RecordColumns(d.columns, ValuesOf(r.target));
  }

  /**
   * Exporting a faithful difference keeps sides, keys and changed columns, so its scripts move the tables as shown
   * above.
   */
  lemma ExportIsFaithful(older: Table, newer: Table, d: DataDiff)
    requires FaithfulDataDiff(older, newer, d)
    ensures FaithfulDiff(older, newer, d.primaryKey, ExportRows(d, None))
  {
    hide KeyOf, UniqueKeys, FaithfulDiffRow, FaithfulRow, ExportOf, DiffKey;
    var rows := ExportRows(d, None);
    forall i | 0 <= i < |rows|
      ensures FaithfulRow(older, newer, d.primaryKey, rows[i]) && rows[i].key == DiffKey(d, d.rows[i])
    {
      ExportedRowIsFaithful(older, newer, d, d.rows[i]);
    }
    forall r | (r in older && r !in newer) || (r in newer && r !in older)
      ensures KeyOf(r, d.primaryKey) in KeysOf(rows)
    {
      var i :| 0 <= i < |d.rows| && DiffKey(d, d.rows[i]) == KeyOf(r, d.primaryKey);
      assert rows[i] in rows;
    }
  }
}
