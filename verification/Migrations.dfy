/** The integer-drift check: what committed migrations last declared about each column. */
module Migrations {
  import opened Prelude
  import opened Strings
  import opened LastWriter

  datatype Declaration = Declaration(table: string, column: string, sqlType: string)

  type Key = (string, string)

  /** (table, column) to the declared type and the file that declared it. */
  type Latest = map<Key, (string, string)>

  type Entry = (Key, (string, string))

  datatype Migration = Migration(file: string, lines: seq<string>)

  datatype Field = Field(name: string, isInteger: bool)

  datatype CheckedResource = CheckedResource(table: string, fields: seq<Field>)

  datatype Drift = Drift(table: string, column: string, file: string)

  // ----- The three line parsers ---------------------------------------------

  function FirstWord(s: string): string {
    var words := Words(s);
    if words == [] then "" else words[0]
  }

  /** CREATE TABLE [IF NOT EXISTS] name, looked for in upper case, name taken as written. */
  function ParseCreateOpen(line: string): Option<string> {
    var upper := Upper(line);
    if !StartsWith(upper, "CREATE TABLE") then None
    else
      var prefix := upper[12..];
      var unguarded := if StartsWith(prefix, " IF NOT EXISTS") then prefix[14..] else prefix;
      var consumed := |line| - |TrimStart(unguarded)|;
      var name := Unquote(DropEnd(FirstWord(line[consumed..]), Is('(')));
      if name == "" then None else Some(name)
  }

  /** name TYPE ..., with a trailing comma or not. */
  function ParseColumn(raw: string): Option<(string, string)> {
    SplitColumn(Trim(DropEnd(raw, Is(','))))
  }

  function SplitColumn(line: string): Option<(string, string)> {
    var k := WordLength(line);
    if k == |line| then None
    else
      var column := Unquote(line[..k]);
      var rest := Words(line[k + 1..]);
      if !IsIdentifier(column) || rest == [] then None
      else
        var sqlType := DropEnd(Upper(rest[0]), Is(','));
        if sqlType == "" then None else Some((column, sqlType))
  }

  /** ALTER TABLE t ALTER COLUMN c TYPE ty */
  function ParseAlter(line: string): Option<Declaration> {
    if !StartsWith(Upper(line), "ALTER TABLE") then None
    else
      var w := Words(line);
      if |w| < 8 || Upper(w[3]) != "ALTER" || Upper(w[4]) != "COLUMN" || Upper(w[6]) != "TYPE" then None
      else Some(Declaration(Unquote(w[2]), Unquote(w[5]), Upper(DropEnd(w[7], Is(';')))))
  }

  // ----- One file -----------------------------------------------------------

  predicate Skipped(line: string) {
    line == "" || StartsWith(line, "--")
  }

  /** The open table after a line. */
  function TableAfter(open: Option<string>, line: string): Option<string> {
    if Skipped(line) then open
    else if ParseCreateOpen(line).Some? then ParseCreateOpen(line)
    else if StartsWith(line, ")") then None
    else open
  }

  /** What a line declares. */
  function DeclaredBy(open: Option<string>, line: string): Option<Declaration> {
    if Skipped(line) || ParseCreateOpen(line).Some? || StartsWith(line, ")") then None
    else if open.Some? && ParseColumn(line).Some? then
      var c := ParseColumn(line).value;
      Some(Declaration(open.value, c.0, c.1))
    else ParseAlter(line)
  }

  function DeclaredFrom(open: Option<string>, lines: seq<string>): seq<Declaration>
    decreases |lines|
  {
    if lines == [] then []
    else
      var line := Trim(lines[0]);
      Emit(DeclaredBy(open, line)) + DeclaredFrom(TableAfter(open, line), lines[1..])
  }

  function Emit(d: Option<Declaration>): seq<Declaration> {
    if d.Some? then [d.value] else []
  }

  /** The declarations of a file, in order; no table is open when it starts. */
  function Declared(lines: seq<string>): seq<Declaration> {
    DeclaredFrom(None, lines)
  }

  /** What a file writes: each declaration, with the file's name. */
  function Entries(ds: seq<Declaration>, file: string): (es: seq<Entry>)
    ensures |es| == |ds|
  {
    if ds == [] then [] else [((ds[0].table, ds[0].column), (ds[0].sqlType, file))] + Entries(ds[1..], file)
  }

  class DriftState {
    var latest: Latest

    constructor ()
      ensures latest == map[]
    {
      latest := map[];
    }

    method ApplyMigration(m: Migration)
      modifies this
      ensures latest == Write(old(latest), Entries(Declared(m.lines), m.file))
    {
      var currentTable := None;
      for i := 0 to |m.lines|
        invariant Write(latest, Entries(DeclaredFrom(currentTable, m.lines[i..]), m.file))
                  == Write(old(latest), Entries(Declared(m.lines), m.file))
      {
        assert m.lines[i..][1..] == m.lines[i + 1..];
        var line := Trim(m.lines[i]);
        WriteHead(latest, DeclaredBy(currentTable, line),
                  DeclaredFrom(TableAfter(currentTable, line), m.lines[i + 1..]), m.file);
        if Skipped(line) {
          continue;
        }
        var table := ParseCreateOpen(line);
        if table.Some? {
          currentTable := table;
          continue;
        }
        if StartsWith(line, ")") {
          currentTable := None;
          continue;
        }
        var column := if currentTable.Some? then ParseColumn(line) else None;
        var alter := ParseAlter(line);
        if column.Some? {
          latest := latest[(currentTable.value, column.value.0) := (column.value.1, m.file)];
        } else if alter.Some? {
          latest := latest[(alter.value.table, alter.value.column) := (alter.value.sqlType, m.file)];
        }
      }
    }
  }

  function Noted(latest: Latest, d: Option<Declaration>, file: string): Latest {
    if d.Some? then latest[(d.value.table, d.value.column) := (d.value.sqlType, file)] else latest
  }

  lemma {:induction false} WriteHead(latest: Latest, d: Option<Declaration>, ds: seq<Declaration>, file: string)
    ensures Write(latest, Entries(Emit(d) + ds, file))
            == Write(Noted(latest, d, file), Entries(ds, file))
  {
    if d.Some? {
      assert ([d.value] + ds)[1..] == ds;
    } else {
      assert [] + ds == ds;
    }
  }

  // ----- All files ----------------------------------------------------------

  /** Everything the files write, in order; each file is read on its own. */
  function Timeline(ms: seq<Migration>): seq<Entry>
    decreases |ms|
  {
    if ms == [] then [] else Entries(Declared(ms[0].lines), ms[0].file) + Timeline(ms[1..])
  }

  function LatestTypes(ms: seq<Migration>): Latest {
    Write(map[], Timeline(ms))
  }

  method ReadMigrations(ms: seq<Migration>) returns (latest: Latest)
    ensures latest == LatestTypes(ms)
  {
    var state := new DriftState();
    for i := 0 to |ms|
      invariant Write(state.latest, Timeline(ms[i..])) == LatestTypes(ms)
    {
      assert ms[i..][1..] == ms[i + 1..];
      WriteAppend(state.latest, Entries(Declared(ms[i].lines), ms[i].file), Timeline(ms[i + 1..]));
      state.ApplyMigration(ms[i]);
    }
    assert ms[|ms|..] == [];
    latest := state.latest;
  }

  method CheckFields(latest: Latest, table: string, fields: seq<Field>) returns (warnings: seq<Drift>)
    ensures warnings == FieldDrifts(latest, table, fields)
  {
    warnings := [];
    for j := 0 to |fields|
      invariant warnings + FieldDrifts(latest, table, fields[j..]) == FieldDrifts(latest, table, fields)
    {
      assert fields[j..][1..] == fields[j + 1..];
      var more := CheckField(latest, table, fields[j]);
      Regroup(warnings, more, FieldDrifts(latest, table, fields[j + 1..]));
      warnings := warnings + more;
    }
  }

  method CheckField(latest: Latest, table: string, field: Field) returns (warnings: seq<Drift>)
    ensures warnings == DriftOf(latest, table, field)
  {
    warnings := [];
    if field.isInteger && (table, field.name) in latest {
      var (sqlType, file) := latest[(table, field.name)];
      if sqlType == "INTEGER" {
        warnings := [Drift(table, field.name, file)];
      }
    }
  }

  /** Warns about every integer field whose last declared type is INTEGER. */
  method CheckIntegerColumnDrift(resources: seq<CheckedResource>, ms: seq<Migration>) returns (warnings: seq<Drift>)
    ensures warnings == DriftsIn(LatestTypes(ms), resources)
  {
    var latest := ReadMigrations(ms);
    warnings := [];
    for i := 0 to |resources|
      invariant warnings + DriftsIn(latest, resources[i..]) == DriftsIn(latest, resources)
    {
      var r := resources[i];
      assert resources[i..][1..] == resources[i + 1..];
      var more := CheckFields(latest, r.table, r.fields);
      Regroup(warnings, more, DriftsIn(latest, resources[i + 1..]));
      warnings := warnings + more;
    }
  }

  lemma Regroup<T>(a: seq<T>, b: seq<T>, c: seq<T>)
    ensures a + b + c == a + (b + c)
  {
  }

  function FieldDrifts(latest: Latest, table: string, fields: seq<Field>): seq<Drift> {
    if fields == [] then [] else DriftOf(latest, table, fields[0]) + FieldDrifts(latest, table, fields[1..])
  }

  function DriftOf(latest: Latest, table: string, field: Field): seq<Drift> {
    var key := (table, field.name);
    if field.isInteger && key in latest && latest[key].0 == "INTEGER" then [Drift(table, field.name, latest[key].1)]
    else []
  }

  function DriftsIn(latest: Latest, resources: seq<CheckedResource>): seq<Drift> {
    if resources == [] then []
    else FieldDrifts(latest, resources[0].table, resources[0].fields) + DriftsIn(latest, resources[1..])
  }

  // ----- The last declaration wins ------------------------------------------

  predicate Names(d: Declaration, key: Key) {
    (d.table, d.column) == key
  }

  ghost predicate LastIn(ds: seq<Declaration>, k: nat, key: Key) {
    k < |ds| && Names(ds[k], key) && forall j :: k < j < |ds| ==> !Names(ds[j], key)
  }

  ghost predicate Silent(ds: seq<Declaration>, key: Key) {
    forall j :: 0 <= j < |ds| ==> !Names(ds[j], key)
  }

  /** The k-th declaration of file `f` is of this column, and no later one anywhere is. */
  ghost predicate DeclaresLast(ms: seq<Migration>, f: nat, k: nat, key: Key) {
    && f < |ms|
    && LastIn(Declared(ms[f].lines), k, key)
    && forall g :: f < g < |ms| ==> Silent(Declared(ms[g].lines), key)
  }

  lemma {:induction false} EntryAt(ds: seq<Declaration>, file: string, k: nat)
    requires k < |ds|
    ensures Entries(ds, file)[k] == ((ds[k].table, ds[k].column), (ds[k].sqlType, file))
  {
    if k > 0 {
      EntryAt(ds[1..], file, k - 1);
    }
  }

  lemma {:induction false} LastEntries(ds: seq<Declaration>, file: string, key: Key)
    ensures forall k: nat :: IsLast(Entries(ds, file), k, key) <==> LastIn(ds, k, key)
    ensures forall k: nat :: LastIn(ds, k, key) ==> Entries(ds, file)[k].1 == (ds[k].sqlType, file)
  {
    forall k: nat | k < |ds|
      ensures Entries(ds, file)[k] == ((ds[k].table, ds[k].column), (ds[k].sqlType, file))
    {
      EntryAt(ds, file, k);
    }
  }

  /** One file's writes: its last declaration of a column, where it has one. */
  lemma {:induction false} FileWrites(latest: Latest, ds: seq<Declaration>, file: string, key: Key)
    ensures var after := Write(latest, Entries(ds, file));
            && (Silent(ds, key) ==> (key in after <==> key in latest) && (key in latest ==> after[key] == latest[key]))
            && (!Silent(ds, key) ==> exists k: nat :: LastIn(ds, k, key))
            && (forall k: nat :: LastIn(ds, k, key) ==> key in after && after[key] == (ds[k].sqlType, file))
  {
    LastWriteStays(latest, Entries(ds, file), key);
    LastEntries(ds, file, key);
    if j :| 0 <= j < |ds| && Names(ds[j], key) {
      EntryAt(ds, file, j);
      var k := SomeoneIsLast(Entries(ds, file), j);
      assert LastIn(ds, k, key);
    }
  }

  lemma {:induction false} TimelineAppend(ms: seq<Migration>, m: Migration)
    ensures Timeline(ms + [m]) == Timeline(ms) + Entries(Declared(m.lines), m.file)
  {
    if ms == [] {
      assert [m][1..] == [] && ms + [m] == [m];
    } else {
      TimelineAppend(ms[1..], m);
      assert (ms + [m])[1..] == ms[1..] + [m] && (ms + [m])[0] == ms[0];
      Regroup(Entries(Declared(ms[0].lines), ms[0].file), Timeline(ms[1..]), Entries(Declared(m.lines), m.file));
    }
  }

  lemma {:induction false} LatestOneMore(ms: seq<Migration>, m: Migration)
    ensures LatestTypes(ms + [m]) == Write(LatestTypes(ms), Entries(Declared(m.lines), m.file))
  {
    TimelineAppend(ms, m);
    WriteAppend(map[], Timeline(ms), Entries(Declared(m.lines), m.file));
  }

  lemma {:induction false} DeclaresInFront(front: seq<Migration>, m: Migration, f: nat, k: nat, key: Key)
    requires f < |front|
    ensures DeclaresLast(front + [m], f, k, key) <==> DeclaresLast(front, f, k, key) && Silent(Declared(m.lines), key)
  {
    var ms := front + [m];
    assert forall g :: 0 <= g < |front| ==> ms[g] == front[g];
    assert ms[|front|] == m;
  }

  /** The map's entry for the column is its last declaration in these files. */
  ghost predicate HoldsLast(latest: Latest, ms: seq<Migration>, key: Key) {
    && (key in latest <==> exists f: nat, k: nat :: DeclaresLast(ms, f, k, key))
    && forall f: nat, k: nat :: DeclaresLast(ms, f, k, key) ==>
         key in latest && latest[key] == (Declared(ms[f].lines)[k].sqlType, ms[f].file)
  }

  lemma SilentFile(front: seq<Migration>, m: Migration, key: Key)
    requires HoldsLast(LatestTypes(front), front, key) && Silent(Declared(m.lines), key)
    ensures HoldsLast(LatestTypes(front + [m]), front + [m], key)
  {
    LatestOneMore(front, m);
    FileWrites(LatestTypes(front), Declared(m.lines), m.file, key);
    forall f: nat, k: nat
      ensures DeclaresLast(front + [m], f, k, key) <==> DeclaresLast(front, f, k, key)
    {
      if f < |front| {
        DeclaresInFront(front, m, f, k, key);
      }
    }
  }

  lemma DeclaringFile(front: seq<Migration>, m: Migration, key: Key)
    requires !Silent(Declared(m.lines), key)
    ensures HoldsLast(LatestTypes(front + [m]), front + [m], key)
  {
    var ms, n := front + [m], |front|;
    LatestOneMore(front, m);
    FileWrites(LatestTypes(front), Declared(m.lines), m.file, key);
    forall f: nat, k: nat
      ensures DeclaresLast(ms, f, k, key) <==> f == n && LastIn(Declared(m.lines), k, key)
    {
      if f < n {
        DeclaresInFront(front, m, f, k, key);
      }
    }
    var k: nat :| LastIn(Declared(m.lines), k, key);
    assert DeclaresLast(ms, n, k, key);
  }

  /** Main result: after any sequence of files a column's entry is its last declaration
      anywhere, and there is one exactly when something declares it. */
  lemma {:induction false} LastDeclarationWins(ms: seq<Migration>, key: Key)
    ensures key in LatestTypes(ms) <==> exists f: nat, k: nat :: DeclaresLast(ms, f, k, key)
    ensures forall f: nat, k: nat :: DeclaresLast(ms, f, k, key) ==>
              LatestTypes(ms)[key] == (Declared(ms[f].lines)[k].sqlType, ms[f].file)
  {
    AllHoldLast(ms, key);
  }

  lemma {:induction false} AllHoldLast(ms: seq<Migration>, key: Key)
    ensures HoldsLast(LatestTypes(ms), ms, key)
    decreases |ms|
  {
    if ms != [] {
      var n := |ms| - 1;
      assert ms == ms[..n] + [ms[n]];
      AllHoldLast(ms[..n], key);
      if Silent(Declared(ms[n].lines), key) {
        SilentFile(ms[..n], ms[n], key);
      } else {
        DeclaringFile(ms[..n], ms[n], key);
      }
    }
  }

  predicate HasIntegerField(resources: seq<CheckedResource>, key: Key) {
    exists r :: r in resources && r.table == key.0 && Field(key.1, true) in r.fields
  }

  lemma {:induction false} FieldDriftsExactly(latest: Latest, table: string, fields: seq<Field>, d: Drift)
    ensures d in FieldDrifts(latest, table, fields) <==>
            d.table == table && Field(d.column, true) in fields && (table, d.column) in latest
              && latest[(table, d.column)] == ("INTEGER", d.file)
  {
    if fields != [] {
      FieldDriftsExactly(latest, table, fields[1..], d);
      assert forall f :: f in fields <==> f == fields[0] || f in fields[1..];
      assert latest == latest;
    }
  }

  lemma {:induction false} DriftsExactly(latest: Latest, resources: seq<CheckedResource>, d: Drift)
    ensures d in DriftsIn(latest, resources) <==>
            HasIntegerField(resources, (d.table, d.column)) && (d.table, d.column) in latest
              && latest[(d.table, d.column)] == ("INTEGER", d.file)
  {
    if resources != [] {
      DriftsExactly(latest, resources[1..], d);
      FieldDriftsExactly(latest, resources[0].table, resources[0].fields, d);
      assert forall r :: r in resources <==> r == resources[0] || r in resources[1..];
    }
  }

  /** Main result: a warning is given exactly for the integer fields whose last declaration
      in the migrations says INTEGER, naming the file that says so. */
  lemma {:induction false} WarnedExactly(resources: seq<CheckedResource>, ms: seq<Migration>, d: Drift)
    ensures d in DriftsIn(LatestTypes(ms), resources) <==>
            && HasIntegerField(resources, (d.table, d.column))
            && exists f: nat, k: nat :: DeclaresLast(ms, f, k, (d.table, d.column)) && ms[f].file == d.file
                                          && Declared(ms[f].lines)[k].sqlType == "INTEGER"
  {
    var key := (d.table, d.column);
    DriftsExactly(LatestTypes(ms), resources, d);
    LastDeclarationWins(ms, key);
  }

  // ----- Statements as the writer prints them -------------------------------

  /** One line of a table body: a column, or a constraint, which the scanner also takes for one. */
  datatype Column = Column(quoted: bool, name: string, sqlType: string, rest: string)

  datatype Statement =
    | Create(table: string, columns: seq<Column>)
    | Alter(table: string, column: string, sqlType: string)

  predicate PrintableColumn(c: Column) {
    && IsIdentifier(c.name) && (c.quoted || Upper(c.name) != "CREATE")
    && IsWord(c.sqlType) && c.sqlType[|c.sqlType| - 1] != ','
    && (c.rest == "" || c.rest[0] == ' ')
  }

  predicate Printable(s: Statement) {
    IsIdentifier(s.table) &&
    match s
    case Create(_, columns) => forall c :: c in columns ==> PrintableColumn(c)
    case Alter(_, column, sqlType) => IsIdentifier(column) && IsWord(sqlType) && sqlType[|sqlType| - 1] != ';'
  }

  /** The opening of a table, with what follows the parenthesis on the same line. */
  function OpenLine(table: string, behind: string): string {
    "CREATE TABLE" + (" IF NOT EXISTS" + (" " + OpenTail(table, behind)))
  }

  function OpenTail(table: string, behind: string): string {
    Quoted(table) + (" (" + behind)
  }

  function Quoted(name: string): string {
    "\"" + name + "\""
  }

  function ColumnText(c: Column): string {
    NameText(c) + " " + c.sqlType
  }

  function NameText(c: Column): string {
    if c.quoted then Quoted(c.name) else c.name
  }

  function ColumnLine(c: Column, more: bool): string {
    "  " + ColumnText(c) + c.rest + if more then "," else ""
  }

  function ColumnLines(cs: seq<Column>): seq<string> {
    if cs == [] then [] else [ColumnLine(cs[0], |cs| > 1)] + ColumnLines(cs[1..])
  }

  function AlterList(table: string, column: string, sqlType: string): seq<string> {
    ["ALTER", "TABLE", table, "ALTER", "COLUMN", column, "TYPE", sqlType + ";"]
  }

  function AlterLine(table: string, column: string, sqlType: string): string {
    Join(AlterList(table, column, sqlType))
  }

  function Print(s: Statement): seq<string> {
    match s
    case Create(table, columns) => [OpenLine(table, "")] + ColumnLines(columns) + [");"]
    case Alter(table, column, sqlType) => [AlterLine(table, column, sqlType)]
  }

  function PrintAll(ss: seq<Statement>): seq<string> {
    if ss == [] then [] else Print(ss[0]) + PrintAll(ss[1..])
  }

  function Columns(table: string, cs: seq<Column>): seq<Declaration> {
    seq(|cs|, i requires 0 <= i < |cs| => Declaration(table, cs[i].name, Upper(cs[i].sqlType)))
  }

  function Says(s: Statement): seq<Declaration> {
    match s
    case Create(table, columns) => Columns(table, columns)
    case Alter(table, column, sqlType) => [Declaration(table, column, Upper(sqlType))]
  }

  function SaysAll(ss: seq<Statement>): seq<Declaration> {
    if ss == [] then [] else Says(ss[0]) + SaysAll(ss[1..])
  }

  // ----- Reading printed statements back ------------------------------------

  /** The name is read whatever stands behind the parenthesis. */
  lemma OpenParses(table: string, behind: string)
    requires IsIdentifier(table)
    ensures ParseCreateOpen(OpenLine(table, behind)) == Some(table)
  {
    var line := OpenLine(table, behind);
    var tail := OpenTail(table, behind);
    UpperOpen(table, behind);
    var upper := Upper(line);
    assert upper[..12] == "CREATE TABLE";
    var prefix := upper[12..];
    assert prefix == " IF NOT EXISTS" + (" " + Upper(tail));
    assert prefix[..14] == " IF NOT EXISTS" && prefix[14..] == " " + Upper(tail);
    SpaceTrimmed(tail);
    assert |line| - |tail| == 27 && line[27..] == tail;
    NameComesFirst(table, behind);
  }

  lemma NameComesFirst(table: string, behind: string)
    requires IsIdentifier(table)
    ensures Unquote(DropEnd(FirstWord(OpenTail(table, behind)), Is('('))) == table
  {
    IdentifierIsWord(table);
    assert IsWord(Quoted(table));
    WordsCons(Quoted(table), " (" + behind);
    DropNothing(Quoted(table), Is('('));
  }

  lemma {:induction false} SpaceTrimmed(tail: string)
    requires tail != "" && tail[0] == '"'
    ensures TrimStart(" " + Upper(tail)) == Upper(tail)
  {
    UpperFacts(tail);
    var s := " " + Upper(tail);
    assert s[1..] == Upper(tail);
    assert TrimStart(s) == TrimStart(s[1..]);
  }

  lemma UpperOpen(table: string, behind: string)
    ensures Upper(OpenLine(table, behind))
            == "CREATE TABLE" + (" IF NOT EXISTS" + (" " + Upper(OpenTail(table, behind))))
  {
    CreateIsUpper();
    GuardIsUpper();
    UpperBehind("CREATE TABLE", " IF NOT EXISTS", OpenTail(table, behind));
  }

  lemma {:induction false} UpperBehind(a: string, b: string, tail: string)
    requires Upper(a) == a && Upper(b) == b
    ensures Upper(a + (b + (" " + tail))) == a + (b + (" " + Upper(tail)))
  {
    UpperAppend(a, b + (" " + tail));
    UpperAppend(b, " " + tail);
    UpperAppend(" ", tail);
    UpperKeeps(" ");
  }

  lemma CreateIsUpper()
    ensures Upper("CREATE TABLE") == "CREATE TABLE"
  {
    UpperKeeps("CREATE TABLE");
  }

  lemma GuardIsUpper()
    ensures Upper(" IF NOT EXISTS") == " IF NOT EXISTS"
  {
    UpperKeeps(" IF NOT EXISTS");
  }

  lemma TrimKeeps(s: string)
    requires s != "" && !IsSpace(s[0]) && !IsSpace(s[|s| - 1])
    ensures Trim(s) == s
  {
    DropNothing(s, Space());
  }

  lemma TextStarts(c: Column)
    requires PrintableColumn(c)
    ensures var t := ColumnText(c);
            t != "" && (t[0] == '"' || IsIdentStart(t[0])) && !IsSpace(t[|t| - 1]) && t[|t| - 1] != ','
  {
    assert c.sqlType[|c.sqlType| - 1] in c.sqlType;
  }

  /** A trimmed column line is the column's text and a tail. */
  lemma ColumnTrims(c: Column, more: bool) returns (tail: string)
    requires PrintableColumn(c)
    ensures Trim(ColumnLine(c, more)) == ColumnText(c) + tail
    ensures tail == "" || tail[0] == ' ' || tail == ","
  {
    TextStarts(c);
    var t := ColumnText(c);
    var full := c.rest + if more then "," else "";
    assert ColumnLine(c, more) == "  " + (t + full);
    TrimTwoSpaces(t + full);
    var k := DropEndStops(t, full, Space());
    tail := full[..k];
  }

  lemma TrimTwoSpaces(s: string)
    requires s != "" && !IsSpace(s[0])
    ensures TrimStart("  " + s) == s
  {
    assert ("  " + s)[1..] == " " + s && (" " + s)[1..] == s;
    assert TrimStart("  " + s) == TrimStart(" " + s) == TrimStart(s);
  }

  /** Commas and spaces behind the column's text go, and what stays starts with a space. */
  lemma TailCleaned(c: Column, tail: string) returns (clean: string)
    requires PrintableColumn(c) && (tail == "" || tail[0] == ' ' || tail == ",")
    ensures Trim(DropEnd(ColumnText(c) + tail, Is(','))) == ColumnText(c) + clean
    ensures clean == "" || clean[0] == ' '
  {
    TextStarts(c);
    var t := ColumnText(c);
    var k := DropEndStops(t, tail, Is(','));
    var rest := tail[..k];
    var n := DropEndStops(t, rest, Space());
    clean := rest[..n];
    assert TrimStart(t + rest) == t + rest;
  }

  lemma ColumnParses(c: Column, tail: string)
    requires PrintableColumn(c) && (tail == "" || tail[0] == ' ' || tail == ",")
    ensures ParseColumn(ColumnText(c) + tail) == Some((c.name, Upper(c.sqlType)))
  {
    var clean := TailCleaned(c, tail);
    CleanColumnParses(c, clean);
  }

  lemma CleanColumnParses(c: Column, clean: string)
    requires PrintableColumn(c) && (clean == "" || clean[0] == ' ')
    ensures SplitColumn(ColumnText(c) + clean) == Some((c.name, Upper(c.sqlType)))
  {
    ColumnSplits(c, clean);
    IdentifierIsWord(c.name);
    WordsCons(c.sqlType, clean);
    SplitReads(ColumnText(c) + clean, NameText(c), c.name, c.sqlType, c.sqlType + clean);
  }

  lemma {:induction false} SplitReads(line: string, first: string, name: string, sqlType: string, behind: string)
    requires WordLength(line) == |first| < |line| && line[..|first|] == first && line[|first| + 1..] == behind
    requires Unquote(first) == name && IsIdentifier(name)
    requires Words(behind) != [] && Words(behind)[0] == sqlType && IsWord(sqlType) && sqlType[|sqlType| - 1] != ','
    ensures SplitColumn(line) == Some((name, Upper(sqlType)))
  {
    TypeKept(sqlType);
  }

  lemma {:induction false} TypeKept(sqlType: string)
    requires IsWord(sqlType) && sqlType[|sqlType| - 1] != ','
    ensures DropEnd(Upper(sqlType), Is(',')) == Upper(sqlType)
  {
    UpperFacts(sqlType);
  }

  lemma ColumnSplits(c: Column, clean: string)
    requires PrintableColumn(c)
    ensures var line := ColumnText(c) + clean;
            var name := NameText(c);
            WordLength(line) == |name| < |line| && line[..|name|] == name && line[|name| + 1..] == c.sqlType + clean
  {
    var name := NameText(c);
    IdentifierIsWord(c.name);
    assert NoSpace(name);
    var behind := c.sqlType + clean;
    assert ColumnText(c) + clean == name + (" " + behind);
    FirstSplits(name, behind);
  }

  lemma FirstSplits(first: string, behind: string)
    requires NoSpace(first)
    ensures var line := first + (" " + behind);
            WordLength(line) == |first| < |line| && line[..|first|] == first && line[|first| + 1..] == behind
  {
    WordLengthIs(first, " " + behind);
    SplitAtSpace(first, behind);
  }

  lemma SplitAtSpace(first: string, behind: string)
    ensures var line := first + (" " + behind);
            line[..|first|] == first && line[|first| + 1..] == behind
  {
    assert first + (" " + behind) == (first + " ") + behind;
  }

  /** No column line is taken for the opening of a table, a close or a comment. */
  lemma ColumnIsNotOpen(c: Column, tail: string)
    requires PrintableColumn(c)
    ensures var line := ColumnText(c) + tail;
            !Skipped(line) && !StartsWith(line, ")") && ParseCreateOpen(line).None?
  {
    var line := ColumnText(c) + tail;
    TextStarts(c);
    assert line[0] == ColumnText(c)[0];
    UpperFacts(line);
    var name := NameText(c);
    assert StartsWith(line, name + " ") by {
      assert line == name + " " + (c.sqlType + tail);
    }
    CreateSplits();
    IdentifierIsWord(c.name);
    if StartsWith(Upper(line), "CREATE TABLE") {
      NamedLike(name, line, "CREATE TABLE", 6);
      UpperFacts(name);
    }
  }

  lemma CreateSplits()
    ensures var key := "CREATE TABLE"; |key| == 12 && key[6] == ' ' && NoSpace(key[..6]) && key[..6] == "CREATE"
  {
  }

  /** A line that opens like `key` has the part of `key` before its space as first word. */
  lemma {:induction false} NamedLike(name: string, line: string, key: string, k: nat)
    requires NoSpace(name) && StartsWith(line, name + " ") && StartsWith(Upper(line), key)
    requires k < |key| && key[k] == ' ' && NoSpace(key[..k])
    ensures Upper(name) == key[..k]
  {
    UpperFacts(line);
    UpperFacts(name);
    var n := |name|;
    assert forall i :: 0 <= i < n ==> line[i] == name[i];
    NamedAsLong(name, line, key, k);
    assert forall i :: 0 <= i < k ==> Upper(name)[i] == Upper(line)[i] == key[i];
  }

  lemma {:induction false} NamedAsLong(name: string, line: string, key: string, k: nat)
    requires NoSpace(name) && StartsWith(line, name + " ") && StartsWith(Upper(line), key)
    requires k < |key| && key[k] == ' ' && NoSpace(key[..k])
    ensures |name| == k
  {
    UpperFacts(line);
    var n := |name|;
    assert (name + " ")[n] == ' ' && line[n] == ' ';
    assert forall i :: 0 <= i < |key| ==> ToUpper(line[i]) == key[i];
    assert forall i :: 0 <= i < k ==> key[i] in key[..k];
    assert forall i :: 0 <= i < n ==> line[i] == name[i] && name[i] in name;
  }

  /** The eight words of an ALTER line. */
  ghost predicate AlterWords(w: seq<string>, table: string, column: string, sqlType: string) {
    AlterShape(w, table, column, sqlType) && forall x :: x in w ==> IsWord(x)
  }

  ghost predicate AlterShape(w: seq<string>, table: string, column: string, sqlType: string) {
    && |w| == 8
    && w[0] == "ALTER" && w[1] == "TABLE" && w[2] == table
    && w[3] == "ALTER" && w[4] == "COLUMN" && w[5] == column
    && w[6] == "TYPE" && w[7] == sqlType + ";"
  }

  lemma {:induction false} KeywordIsWord(s: string)
    requires IsIdentifier(s) && NoLower(s)
    ensures IsWord(s) && Upper(s) == s
  {
    IdentifierIsWord(s);
    UpperKeeps(s);
  }

  lemma Keywords()
    ensures IsIdentifier("ALTER") && NoLower("ALTER") && IsIdentifier("TABLE") && NoLower("TABLE")
    ensures IsIdentifier("COLUMN") && NoLower("COLUMN") && IsIdentifier("TYPE") && NoLower("TYPE")
  {
  }

  lemma KeywordsRead()
    ensures IsWord("ALTER") && IsWord("TABLE") && IsWord("COLUMN") && IsWord("TYPE")
    ensures Upper("ALTER") == "ALTER" && Upper("TABLE") == "TABLE" && Upper("COLUMN") == "COLUMN"
            && Upper("TYPE") == "TYPE"
  {
    Keywords();
    KeywordIsWord("ALTER");
    KeywordIsWord("TABLE");
    KeywordIsWord("COLUMN");
    KeywordIsWord("TYPE");
  }

  lemma {:induction false} SemicolonDropped(sqlType: string)
    requires IsWord(sqlType) && sqlType[|sqlType| - 1] != ';'
    ensures IsWord(sqlType + ";") && DropEnd(sqlType + ";", Is(';')) == sqlType
  {
    assert (sqlType + ";")[..|sqlType|] == sqlType;
    assert DropEnd(sqlType, Is(';')) == sqlType;
  }

  /** The words of a printed ALTER line. */
  lemma AlterIsWords(table: string, column: string, sqlType: string) returns (w: seq<string>)
    requires Printable(Alter(table, column, sqlType))
    ensures AlterWords(w, table, column, sqlType) && AlterLine(table, column, sqlType) == Join(w)
  {
    w := AlterList(table, column, sqlType);
    ShapeIsWords(w, table, column, sqlType);
  }

  lemma ShapeIsWords(w: seq<string>, table: string, column: string, sqlType: string)
    requires Printable(Alter(table, column, sqlType)) && AlterShape(w, table, column, sqlType)
    ensures AlterWords(w, table, column, sqlType)
  {
    KeywordsRead();
    IdentifierIsWord(table);
    IdentifierIsWord(column);
    SemicolonDropped(sqlType);
    AllWords(w);
  }

  lemma AllWords(w: seq<string>)
    requires |w| == 8 && IsWord(w[0]) && IsWord(w[1]) && IsWord(w[2]) && IsWord(w[3])
    requires IsWord(w[4]) && IsWord(w[5]) && IsWord(w[6]) && IsWord(w[7])
    ensures forall x :: x in w ==> IsWord(x)
  {
  }

  lemma {:induction false} WordsParse(w: seq<string>, table: string, column: string, sqlType: string)
    requires Printable(Alter(table, column, sqlType)) && AlterWords(w, table, column, sqlType)
    ensures ParseAlter(Join(w)) == Some(Declaration(table, column, Upper(sqlType)))
  {
    AlterStarts(w);
    WordsOfJoin(w);
    KeywordsRead();
    IdentifierIsWord(table);
    IdentifierIsWord(column);
    SemicolonDropped(sqlType);
  }

  lemma {:induction false} AlterParses(table: string, column: string, sqlType: string)
    requires Printable(Alter(table, column, sqlType))
    ensures ParseAlter(AlterLine(table, column, sqlType)) == Some(Declaration(table, column, Upper(sqlType)))
  {
    var w := AlterIsWords(table, column, sqlType);
    WordsParse(w, table, column, sqlType);
  }

  lemma AlterTable()
    ensures Upper("ALTER TABLE") == "ALTER TABLE"
  {
    UpperKeeps("ALTER TABLE");
  }

  lemma AlterThenTable()
    ensures "ALTER" + (" " + "TABLE") == "ALTER TABLE"
  {
  }

  lemma {:induction false} AlterStarts(words: seq<string>)
    requires |words| > 2 && words[0] == "ALTER" && words[1] == "TABLE"
    ensures StartsWith(Upper(Join(words)), "ALTER TABLE")
  {
    AlterTable();
    AlterThenTable();
    FirstTwo(words, "ALTER TABLE");
  }

  lemma {:induction false} FirstTwo(words: seq<string>, start: string)
    requires |words| > 2 && words[0] + (" " + words[1]) == start && Upper(start) == start
    ensures StartsWith(Upper(Join(words)), start)
  {
    var rest := " " + Join(words[2..]);
    assert words[1..][1..] == words[2..];
    assert Join(words[1..]) == words[1] + rest;
    assert Join(words) == start + rest;
    UpperAppend(start, rest);
  }

  /** The table open after some lines. */
  function OpenAfter(open: Option<string>, lines: seq<string>): Option<string>
    decreases |lines|
  {
    if lines == [] then open else OpenAfter(TableAfter(open, Trim(lines[0])), lines[1..])
  }

  lemma {:induction false} OpenAppend(open: Option<string>, a: seq<string>, b: seq<string>)
    ensures OpenAfter(open, a + b) == OpenAfter(OpenAfter(open, a), b)
    decreases |a|
  {
    if a == [] {
      assert a + b == b;
    } else {
      assert (a + b)[1..] == a[1..] + b && (a + b)[0] == a[0];
      OpenAppend(TableAfter(open, Trim(a[0])), a[1..], b);
    }
  }

  lemma {:induction false} DeclaredAppend(open: Option<string>, a: seq<string>, b: seq<string>)
    ensures DeclaredFrom(open, a + b) == DeclaredFrom(open, a) + DeclaredFrom(OpenAfter(open, a), b)
    decreases |a|
  {
    if a == [] {
      assert a + b == b;
    } else {
      var line := Trim(a[0]);
      var next := TableAfter(open, line);
      assert (a + b)[1..] == a[1..] + b && (a + b)[0] == a[0];
      DeclaredAppend(next, a[1..], b);
      Regroup(Emit(DeclaredBy(open, line)), DeclaredFrom(next, a[1..]), DeclaredFrom(OpenAfter(open, a), b));
    }
  }

  lemma {:induction false} OneLine(open: Option<string>, raw: string)
    ensures var d := DeclaredBy(open, Trim(raw));
            DeclaredFrom(open, [raw]) == Emit(d) && OpenAfter(open, [raw]) == TableAfter(open, Trim(raw))
  {
    assert [raw][1..] == [];
  }

  lemma ColumnReads(table: string, c: Column, more: bool)
    requires PrintableColumn(c)
    ensures DeclaredFrom(Some(table), [ColumnLine(c, more)]) == [Declaration(table, c.name, Upper(c.sqlType))]
    ensures OpenAfter(Some(table), [ColumnLine(c, more)]) == Some(table)
  {
    var tail := ColumnTrims(c, more);
    ColumnIsNotOpen(c, tail);
    ColumnParses(c, tail);
    OneLine(Some(table), ColumnLine(c, more));
  }

  lemma {:induction false} ColumnsRead(table: string, cs: seq<Column>)
    requires forall c :: c in cs ==> PrintableColumn(c)
    ensures DeclaredFrom(Some(table), ColumnLines(cs)) == Columns(table, cs)
    ensures OpenAfter(Some(table), ColumnLines(cs)) == Some(table)
  {
    if cs != [] {
      assert cs[0] in cs;
      ColumnReads(table, cs[0], |cs| > 1);
      ColumnsRead(table, cs[1..]);
      DeclaredAppend(Some(table), [ColumnLine(cs[0], |cs| > 1)], ColumnLines(cs[1..]));
      OpenAppend(Some(table), [ColumnLine(cs[0], |cs| > 1)], ColumnLines(cs[1..]));
      FirstColumn(table, cs);
    }
  }

  lemma FirstColumn(table: string, cs: seq<Column>)
    requires cs != []
    ensures Columns(table, cs) == [Declaration(table, cs[0].name, Upper(cs[0].sqlType))] + Columns(table, cs[1..])
  {
  }

  /** An opening line opens its table, whatever was open and whatever follows on the line. */
  lemma {:induction false} OpenReads(open: Option<string>, table: string, behind: string)
    requires IsIdentifier(table) && (behind == "" || !IsSpace(behind[|behind| - 1]))
    ensures DeclaredFrom(open, [OpenLine(table, behind)]) == []
            && OpenAfter(open, [OpenLine(table, behind)]) == Some(table)
  {
    OpenTrims(table, behind);
    OpenParses(table, behind);
    LineOpens(open, OpenLine(table, behind), table);
  }

  lemma {:induction false} LineOpens(open: Option<string>, line: string, table: string)
    requires Trim(line) == line && line != "" && line[0] == 'C' && ParseCreateOpen(line) == Some(table)
    ensures DeclaredFrom(open, [line]) == [] && OpenAfter(open, [line]) == Some(table)
  {
    NotSkipped(line);
    OneLine(open, line);
  }

  lemma NotSkipped(line: string)
    requires line != "" && line[0] == 'C'
    ensures !Skipped(line)
  {
  }

  lemma OpenTrims(table: string, behind: string)
    requires behind == "" || !IsSpace(behind[|behind| - 1])
    ensures var line := OpenLine(table, behind);
            Trim(line) == line && line != "" && line[0] == 'C'
  {
    TrimKeeps(OpenLine(table, behind));
  }

  lemma {:induction false} CloseReads(open: Option<string>)
    ensures DeclaredFrom(open, [");"]) == [] && OpenAfter(open, [");"]) == None
  {
    TrimKeeps(");");
    assert ");"[..1] == ")";
    UpperFacts(");");
    assert Upper(");")[0] == ')';
    OneLine(open, ");");
  }

  lemma {:induction false} AlterReads(table: string, column: string, sqlType: string)
    requires Printable(Alter(table, column, sqlType))
    ensures DeclaredFrom(None, [AlterLine(table, column, sqlType)]) == [Declaration(table, column, Upper(sqlType))]
    ensures OpenAfter(None, [AlterLine(table, column, sqlType)]) == None
  {
    var line := AlterLine(table, column, sqlType);
    AlterParses(table, column, sqlType);
    AlterEnds(table, column, sqlType);
    TrimKeeps(line);
    OrdinaryLine(line);
    OneLine(None, line);
  }

  lemma OrdinaryLine(line: string)
    requires line != "" && line[0] == 'A'
    ensures !Skipped(line) && ParseCreateOpen(line).None? && !StartsWith(line, ")")
  {
    UpperFacts(line);
    assert Upper(line)[0] == 'A';
  }

  lemma AlterEnds(table: string, column: string, sqlType: string)
    requires Printable(Alter(table, column, sqlType))
    ensures var line := AlterLine(table, column, sqlType); line != "" && line[0] == 'A' && line[|line| - 1] == ';'
  {
    var w := AlterIsWords(table, column, sqlType);
    JoinEnds(w);
    assert Join(w) == w[0] + (" " + Join(w[1..]));
  }

  lemma {:induction false} JoinEnds(words: seq<string>)
    requires words != [] && words[|words| - 1] != ""
    ensures Join(words) != "" && Join(words)[|Join(words)| - 1] == words[|words| - 1][|words[|words| - 1]| - 1]
  {
    if |words| > 1 {
      JoinEnds(words[1..]);
    }
  }

  lemma StatementReads(s: Statement)
    requires Printable(s)
    ensures DeclaredFrom(None, Print(s)) == Says(s) && OpenAfter(None, Print(s)) == None
  {
    match s
    case Create(table, columns) =>
      OpenReads(None, table, "");
      ColumnsRead(table, columns);
      CloseReads(Some(table));
      var head := [OpenLine(table, "")] + ColumnLines(columns);
      DeclaredAppend(None, [OpenLine(table, "")], ColumnLines(columns));
      DeclaredAppend(None, head, [");"]);
      OpenAppend(None, [OpenLine(table, "")], ColumnLines(columns));
      OpenAppend(None, head, [");"]);
      assert [] + Columns(table, columns) + [] == Columns(table, columns);
    case Alter(table, column, sqlType) =>
      AlterReads(table, column, sqlType);
  }

  /** Main result: from the text of printed statements the scanner recovers exactly what
      they declare, in order. */
  lemma {:induction false} PrintedStatementsReadBack(ss: seq<Statement>)
    requires forall s :: s in ss ==> Printable(s)
    ensures Declared(PrintAll(ss)) == SaysAll(ss) && OpenAfter(None, PrintAll(ss)) == None
  {
    if ss != [] {
      assert ss[0] in ss;
      StatementReads(ss[0]);
      PrintedStatementsReadBack(ss[1..]);
      DeclaredAppend(None, Print(ss[0]), PrintAll(ss[1..]));
      OpenAppend(None, Print(ss[0]), PrintAll(ss[1..]));
    }
  }

  lemma AlterAsColumn(table: string, column: string, sqlType: string)
    requires Printable(Alter(table, column, sqlType))
    ensures ParseColumn(AlterLine(table, column, sqlType)) == Some(("ALTER", "TABLE"))
  {
    var line := AlterLine(table, column, sqlType);
    AlterEnds(table, column, sqlType);
    TrimKeeps(line);
    assert DropEnd(line, Is(',')) == line;
    var w := AlterIsWords(table, column, sqlType);
    Keywords();
    KeywordsRead();
    SplitsFirst(w);
  }

  lemma {:induction false} SplitsFirst(words: seq<string>)
    requires |words| > 1 && (forall w :: w in words ==> IsWord(w))
    requires IsIdentifier(words[0]) && words[1] != "" && words[1][|words[1]| - 1] != ','
    ensures SplitColumn(Join(words)) == Some((words[0], Upper(words[1])))
  {
    var first := words[0];
    var behind := Join(words[1..]);
    var line := first + (" " + behind);
    WordsOfJoin(words[1..]);
    IdentifierIsWord(first);
    FirstSplits(first, behind);
    assert words[1] in words;
    SplitReads(line, first, first, words[1], behind);
  }

  lemma {:induction false} AlterIn(open: Option<string>, table: string, column: string, sqlType: string)
    requires Printable(Alter(table, column, sqlType))
    ensures DeclaredFrom(open, [AlterLine(table, column, sqlType)]) ==
            [if open.None? then Declaration(table, column, Upper(sqlType))
             else Declaration(open.value, "ALTER", "TABLE")]
  {
    var line := AlterLine(table, column, sqlType);
    AlterReads(table, column, sqlType);
    AlterAsColumn(table, column, sqlType);
    AlterEnds(table, column, sqlType);
    TrimKeeps(line);
    OrdinaryLine(line);
    OneLine(open, line);
  }

  // ----- Tables left open ---------------------------------------------------

  /** The line opens a table. */
  predicate Opens(raw: string) {
    !Skipped(Trim(raw)) && ParseCreateOpen(Trim(raw)).Some?
  }

  /** The line starts with the closing parenthesis; what stands behind it does not matter, and
      one further along a line does not count. */
  predicate Closes(raw: string) {
    StartsWith(Trim(raw), ")")
  }

  /** Some line opens a table and no later one closes it. */
  predicate LeftOpen(lines: seq<string>) {
    exists i :: 0 <= i < |lines| && OpensLast(lines, i)
  }

  predicate OpensLast(lines: seq<string>, i: nat)
    requires i < |lines|
  {
    Opens(lines[i]) && forall j :: i < j < |lines| ==> !Closes(lines[j])
  }

  lemma ClosingIsOrdinary(line: string)
    requires StartsWith(line, ")")
    ensures !Skipped(line) && ParseCreateOpen(line).None?
  {
    UpperFacts(line);
    assert line[0] == ')' && Upper(line)[0] == ')';
  }

  lemma OpenAfterLine(open: Option<string>, raw: string)
    ensures TableAfter(open, Trim(raw)).Some? <==> Opens(raw) || (open.Some? && !Closes(raw))
  {
    if Closes(raw) {
      ClosingIsOrdinary(Trim(raw));
    }
  }

  lemma OpensLastInFront(lines: seq<string>, i: nat)
    requires i < |lines| - 1
    ensures OpensLast(lines, i) <==> OpensLast(lines[..|lines| - 1], i) && !Closes(lines[|lines| - 1])
  {
    var n := |lines| - 1;
    var front := lines[..n];
    assert front[i] == lines[i];
    if OpensLast(front, i) && !Closes(lines[n]) {
      forall j | i < j < |lines|
        ensures !Closes(lines[j])
      {
        assert j < n ==> front[j] == lines[j];
      }
    }
    if OpensLast(lines, i) {
      forall j | i < j < n
        ensures !Closes(front[j])
      {
        assert front[j] == lines[j];
      }
    }
  }

  lemma LeftOpenStep(lines: seq<string>)
    requires lines != []
    ensures var n := |lines| - 1;
            LeftOpen(lines) <==> Opens(lines[n]) || (LeftOpen(lines[..n]) && !Closes(lines[n]))
  {
    var n := |lines| - 1;
    assert OpensLast(lines, n) <==> Opens(lines[n]);
    forall i | 0 <= i < n
      ensures OpensLast(lines, i) <==> OpensLast(lines[..n], i) && !Closes(lines[n])
    {
      OpensLastInFront(lines, i);
    }
  }

  /** After some lines a table is open exactly when they leave one open. */
  lemma {:induction false} OpenExactly(lines: seq<string>)
    ensures OpenAfter(None, lines).Some? <==> LeftOpen(lines)
  {
    if lines != [] {
      var n := |lines| - 1;
      OpenExactly(lines[..n]);
      assert lines == lines[..n] + [lines[n]];
      OpenAppend(None, lines[..n], [lines[n]]);
      OneLine(OpenAfter(None, lines[..n]), lines[n]);
      OpenAfterLine(OpenAfter(None, lines[..n]), lines[n]);
      LeftOpenStep(lines);
    }
  }

  /** Main result: behind any lines, a printed ALTER statement is read for what it says exactly
      when they leave no table open. Otherwise it is read as a column called ALTER of type
      TABLE; only if it says just that of the open table is nothing lost. */
  lemma {:induction false} AlterReadExactly(lines: seq<string>, table: string, column: string, sqlType: string)
    requires Printable(Alter(table, column, sqlType))
    ensures Declared(lines + [AlterLine(table, column, sqlType)])
            == Declared(lines) + Says(Alter(table, column, sqlType)) <==>
            !LeftOpen(lines)
              || (OpenAfter(None, lines) == Some(table) && column == "ALTER" && Upper(sqlType) == "TABLE")
  {
    var open := OpenAfter(None, lines);
    DeclaredAppend(None, lines, [AlterLine(table, column, sqlType)]);
    AlterIn(open, table, column, sqlType);
    OpenExactly(lines);
    SameEnd(Declared(lines), Says(Alter(table, column, sqlType)),
            DeclaredFrom(open, [AlterLine(table, column, sqlType)]));
  }

  lemma SameEnd<T>(front: seq<T>, a: seq<T>, b: seq<T>)
    ensures front + a == front + b <==> a == b
  {
    if front + a == front + b {
      assert a == (front + a)[|front|..] && b == (front + b)[|front|..];
    }
  }

  /** A table written on one line leaves itself open, so an ALTER behind it is lost. */
  lemma OneLineTableHidesAlter(table: string, body: string, column: string, sqlType: string)
    requires IsIdentifier(table) && Printable(Alter(table, column, sqlType))
    ensures var create := OpenLine(table, body + ");");
            && OpenAfter(None, [create]) == Some(table)
            && Declared([create, AlterLine(table, column, sqlType)]) == [Declaration(table, "ALTER", "TABLE")]
  {
    var create := OpenLine(table, body + ");");
    OpenReads(None, table, body + ");");
    DeclaredAppend(None, [create], [AlterLine(table, column, sqlType)]);
    AlterIn(Some(table), table, column, sqlType);
    assert [create, AlterLine(table, column, sqlType)] == [create] + [AlterLine(table, column, sqlType)];
  }

  /** A line of a table body that starts with a bare keyword. */
  function KeywordLine(keyword: string, name: string, body: string, more: bool): string {
    "  " + (keyword + " " + name) + (" " + body) + if more then "," else ""
  }

  lemma {:induction false} KeywordIsAColumn(table: string, keyword: string, name: string, body: string, more: bool)
    requires IsIdentifier(keyword) && Upper(keyword) != "CREATE" && IsWord(name) && name[|name| - 1] != ','
    ensures var line := KeywordLine(keyword, name, body, more);
            && DeclaredFrom(Some(table), [line]) == [Declaration(table, keyword, Upper(name))]
            && OpenAfter(Some(table), [line]) == Some(table)
  {
    var c := Column(false, keyword, name, " " + body);
    assert ColumnLine(c, more) == KeywordLine(keyword, name, body, more);
    ColumnReads(table, c, more);
  }

  /** Inside a table a constraint, its name quoted or not, declares a column of the name
      CONSTRAINT whose type is the constraint's name. */
  lemma {:induction false} ConstraintIsAColumn(table: string, name: string, body: string, more: bool)
    requires IsWord(name) && name[|name| - 1] != ','
    ensures var line := KeywordLine("CONSTRAINT", name, body, more);
            && DeclaredFrom(Some(table), [line]) == [Declaration(table, "CONSTRAINT", Upper(name))]
            && OpenAfter(Some(table), [line]) == Some(table)
  {
    ConstraintIsIdentifier();
    KeywordIsAColumn(table, "CONSTRAINT", name, body, more);
  }

  lemma ConstraintIsIdentifier()
    ensures IsIdentifier("CONSTRAINT") && Upper("CONSTRAINT") != "CREATE"
  {
    var s := "CONSTRAINT";
    LettersAreIdentifier(s);
    UpperFacts(s);
  }

  lemma LettersAreIdentifier(s: string)
    requires s != "" && forall i :: 0 <= i < |s| ==> 'A' <= s[i] <= 'Z'
    ensures IsIdentifier(s)
  {
  }
}
