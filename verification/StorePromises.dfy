/** What a client is promised by each request to the generated store, said of the request and
    the rows alone. */
module StorePromises {
  import opened Prelude
  import opened Values
  import opened Schema
  import opened ListQuery
  import opened Mutations
  import opened Store

  // ----- What a body says of a field ----------------------------------------

  /** The body carries a document for the field, neither absent nor null. */
  predicate Sent(body: Body, f: string) {
    f in body && body[f].JsonDoc?
  }

  /** The document sent for the field does not parse as a value of the field's own type. */
  predicate Garbled(d: Dialect, r: Resource, body: Body, f: string) {
    f in r.schema.at && Sent(body, f) && d.parseJson(r.schema.at[f].fieldType, body[f].doc) == None
  }

  /** The first of the names that is in the set. */
  function FirstIn(names: seq<string>, bad: set<string>): Option<string> {
    if names == [] then None
    else
      var n := |names| - 1;
      var before := FirstIn(names[..n], bad);
      if before.Some? then before else if names[n] in bad then Some(names[n]) else None
  }

  lemma {:induction false} FirstInIsFirst(names: seq<string>, bad: set<string>, c: string)
    ensures FirstIn(names, bad) == Some(c) <==>
            exists i :: 0 <= i < |names| && names[i] == c && c in bad && forall j :: 0 <= j < i ==> names[j] !in bad
    ensures FirstIn(names, bad) == None <==> forall n :: n in names ==> n !in bad
  {
    if names != [] {
      var n := |names| - 1;
      FirstInIsFirst(names[..n], bad, c);
      assert names == names[..n] + [names[n]];
      assert forall i :: 0 <= i < n ==> names[..n][i] == names[i];
    }
  }

  // ----- Inserts -------------------------------------------------------------

  /** A stored column whose value comes from the body, or from its default. */
  predicate FromBody(r: Resource, c: string) {
    c in r.schema.at && !r.schema.at[c].transient && !r.schema.at[c].generated
  }

  /** Nothing is sent for the column, nothing declared, and NULL is not allowed. */
  predicate Missing(r: Resource, body: Body, c: string) {
    c in r.schema.at && !Sent(body, c) && r.schema.at[c].default == None && !r.schema.at[c].IsOptional()
  }

  function GarbledColumns(d: Dialect, r: Resource, body: Body): set<string> {
    set c | c in r.schema.at && FromBody(r, c) && Garbled(d, r, body, c)
  }

  function MissingColumns(r: Resource, body: Body): set<string> {
    set c | c in r.schema.at && FromBody(r, c) && Missing(r, body, c)
  }

  function Unfit(d: Dialect, r: Resource, body: Body): set<string> {
    GarbledColumns(d, r, body) + MissingColumns(r, body)
  }

  /** A generated column draws a uuid, the time or the day; any other type holds NULL where it
      may, and else the type's own zero. */
  predicate Drawn(f: FieldSchema, c: string, clock: Clock, v: Value) {
    match f.fieldType
    case UuidType => v == Uuid(clock.uuids(c))
    case TimestampType => v == Timestamp(clock.now)
    case DateType => v == Date(clock.today)
    case IntegerType => v == if f.IsOptional() then Null else Integer(0)
    case NumberType => v == if f.IsOptional() then Null else Number(0.0)
    case BooleanType => v == if f.IsOptional() then Null else Boolean(false)
    case JsonType => v == if f.IsOptional() then Null else Json("null")
    case ArrayType => v == if f.IsOptional() then Null else Array("[]")
    case _ => v == if f.IsOptional() then Null else Text("")
  }

  /** What a column of a new row holds: what was drawn, sent or declared, in this order, or NULL. */
  predicate HoldsNew(d: Dialect, r: Resource, body: Body, clock: Clock, c: string, v: Value)
    requires c in r.schema.at
  {
    var f := r.schema.at[c];
    if f.generated then Drawn(f, c, clock, v)
    else if Sent(body, c) then d.parseJson(f.fieldType, body[c].doc) == Some(v)
    else if f.default.Some? then v == f.default.value
    else f.IsOptional() && v == Null
  }

  ghost predicate NewRow(d: Dialect, r: Resource, body: Body, clock: Clock, row: Row) {
    && row.Keys == StoredColumns(r.schema)
    && forall c :: c in row ==> HoldsNew(d, r, body, clock, c, row[c])
  }

  /** What an insert may do, and must answer. */
  ghost predicate InsertKept(d: Dialect, r: Resource, body: Body, clock: Clock, accepted: bool, s: State, t: State,
                             out: Outcome) {
    && (match FirstIn(r.schema.keys, Unfit(d, r, body))
        case Some(c) => out == Err(if Garbled(d, r, body, c) then InvalidValue(c) else RequiredField(c))
        case None => out.Ok? || out == Err(Rejected))
    && (out.Err? ==> t == s)
    && (out.Ok? ==> NewRow(d, r, body, clock, out.value) && accepted && Added(r, out.value, s, t))
    && (out == Err(Rejected) && accepted ==>
          forall row :: NewRow(d, r, body, clock, row) ==> Taken(r, row, s))
  }

  /** The row's key is not a uuid, or names a row that is there already, deleted or not. */
  predicate Taken(r: Resource, row: Row, s: State) {
    var key := Col(row, PrimaryKey(r));
    key.Uuid? ==> key.id in s.live || key.id in s.dead
  }

  /** One row more, under its own key; everything else as before. */
  ghost predicate Added(r: Resource, row: Row, s: State, t: State) {
    var key := Col(row, PrimaryKey(r));
    && key.Uuid? && key.id !in s.live && key.id !in s.dead
    && (r.softDelete && Col(row, "deleted_at") != Null ==> t == State(s.live, s.dead[key.id := row]))
    && (!r.softDelete || Col(row, "deleted_at") == Null ==> t == State(s.live[key.id := row], s.dead))
  }

  // ----- Updates -------------------------------------------------------------

  /** A column that an update may change. */
  predicate Changeable(r: Resource, c: string) {
    c in r.schema.at && !r.schema.at[c].primary && !r.schema.at[c].generated && !r.schema.at[c].transient
  }

  function GarbledFields(d: Dialect, r: Resource, body: Body): set<string> {
    set f | f in r.schema.at && Changeable(r, f) && Garbled(d, r, body, f)
  }

  /** What a column holds after an update: what was sent, NULL for a null, the time in the stamp,
      and otherwise what it held. */
  predicate HoldsChanged(d: Dialect, r: Resource, body: Body, now: int, c: string, was: Value, v: Value) {
    if Changeable(r, c) && Sent(body, c) then d.parseJson(r.schema.at[c].fieldType, body[c].doc) == Some(v)
    else if Changeable(r, c) && c in body then v == Null
    else if c == "updated_at" && c in r.schema.at && r.schema.at[c].generated
            && r.schema.at[c].fieldType == TimestampType
    then v == Timestamp(now)
    else v == was
  }

  ghost predicate ChangedRow(d: Dialect, r: Resource, body: Body, now: int, was: Row, row: Row) {
    row.Keys == was.Keys && forall c :: c in row ==> HoldsChanged(d, r, body, now, c, was[c], row[c])
  }

  /** There is something to change, and the body names none of it. */
  ghost predicate NothingNamed(r: Resource, body: Body) {
    (exists f :: Changeable(r, f)) && forall f :: Changeable(r, f) ==> f !in body
  }

  /** What an update may do, and must answer. */
  ghost predicate UpdateKept(d: Dialect, r: Resource, id: nat, body: Body, now: int, accepted: bool, s: State,
                             t: State, out: Outcome) {
    && (match FirstIn(r.schema.keys, GarbledFields(d, r, body))
        case Some(f) => out == Err(InvalidValue(f))
        case None =>
          if NothingNamed(r, body) then out == Err(EmptyUpdate)
          else if id !in s.live then out == Err(NotFound)
          else if !accepted then out == Err(Rejected)
          else out.Ok?)
    && (out.Err? ==> t == s)
    && (out.Ok? ==>
          && id in s.live
          && ChangedRow(d, r, body, now, s.live[id], out.value)
          && Replaced(r, id, out.value, s, t))
  }

  /** One live row is replaced, or goes to the deleted ones if its mark was set; the others stay. */
  ghost predicate Replaced(r: Resource, id: nat, row: Row, s: State, t: State) {
    && (r.softDelete && Col(row, "deleted_at") != Null ==> t == State(s.live - {id}, s.dead[id := row]))
    && (!r.softDelete || Col(row, "deleted_at") == Null ==> t == State(s.live[id := row], s.dead - {id}))
  }

  // ----- Inserts keep their promise -----------------------------------------

  lemma ColumnInserted(d: Dialect, r: Resource, body: Body, clock: Clock, c: string)
    requires c in r.schema.at && !r.schema.at[c].transient
    ensures var v := InsertValue(d, r, body, clock, c);
            && (v.Ok? ==> HoldsNew(d, r, body, clock, c, v.value))
            && (v.Ok? <==> c !in Unfit(d, r, body))
            && (v.Err? ==> v.error == RefusalFor(d, r, body, c))
  {
  }

  function RefusalFor(d: Dialect, r: Resource, body: Body, c: string): StoreError {
    if Garbled(d, r, body, c) then InvalidValue(c) else RequiredField(c)
  }

  /** Only one value will do. */
  lemma OneNewValue(d: Dialect, r: Resource, body: Body, clock: Clock, c: string, v: Value, w: Value)
    requires c in r.schema.at && HoldsNew(d, r, body, clock, c, v) && HoldsNew(d, r, body, clock, c, w)
    ensures v == w
  {
  }

  lemma OneNewRow(d: Dialect, r: Resource, body: Body, clock: Clock, row: Row, other: Row)
    requires NewRow(d, r, body, clock, row) && NewRow(d, r, body, clock, other)
    ensures row == other
  {
    forall c | c in row
      ensures row[c] == other[c]
    {
      OneNewValue(d, r, body, clock, c, row[c], other[c]);
    }
  }

  lemma UnfitIsStored(d: Dialect, r: Resource, body: Body, c: string)
    ensures c in Unfit(d, r, body) ==> c in r.schema.at && !r.schema.at[c].transient
  {
  }

  /** Whether the values are refused for the first unfit of the names. */
  ghost predicate RefusedFor(d: Dialect, r: Resource, body: Body, first: Option<string>,
                             values: Result<seq<Value>, StoreError>) {
    if first.Some? then values == Err(RefusalFor(d, r, body, first.value)) else values.Ok?
  }

  lemma {:induction false} ColumnsInserted(d: Dialect, r: Resource, body: Body, clock: Clock, names: seq<string>)
    requires forall n :: n in names ==> n in r.schema.at
    ensures RefusedFor(d, r, body, FirstIn(names, Unfit(d, r, body)),
                       InsertValues(d, r, body, clock, PersistedAmong(names, r.schema.at)))
  {
    if names != [] {
      var n := |names| - 1;
      var last := names[n];
      ColumnsInserted(d, r, body, clock, names[..n]);
      UnfitIsStored(d, r, body, last);
      PersistedLast(names, r.schema.at);
      if !r.schema.at[last].transient {
        ColumnInserted(d, r, body, clock, last);
        ValuesAppend(d, r, body, clock, PersistedAmong(names[..n], r.schema.at), last);
      }
    }
  }

  lemma {:induction false} PersistedLast(names: seq<string>, at: map<string, FieldSchema>)
    requires names != [] && names[|names| - 1] in at
    ensures var n := |names| - 1;
            PersistedAmong(names, at)
            == if at[names[n]].transient then PersistedAmong(names[..n], at)
               else PersistedAmong(names[..n], at) + [names[n]]
  {
  }

  lemma {:induction false} ValuesAppend(d: Dialect, r: Resource, body: Body, clock: Clock, front: seq<string>,
                                        c: string)
    requires (forall f :: f in front ==> f in r.schema.at) && c in r.schema.at
    ensures var before, v := InsertValues(d, r, body, clock, front), InsertValue(d, r, body, clock, c);
            InsertValues(d, r, body, clock, front + [c])
            == if before.Err? then before else if v.Err? then Err(v.error) else Ok(before.value + [v.value])
  {
    assert (front + [c])[..|front|] == front;
  }

  lemma {:induction false} NewRowHolds(d: Dialect, r: Resource, body: Body, clock: Clock)
    requires InsertValues(d, r, body, clock, Persisted(r)).Ok?
    ensures NewRow(d, r, body, clock, RowOf(Persisted(r), InsertValues(d, r, body, clock, Persisted(r)).value))
  {
    var columns := Persisted(r);
    var values := InsertValues(d, r, body, clock, columns).value;
    var row := RowOf(columns, values);
    PersistedDistinct(r);
    RowOfHolds(columns, values);
    KeysKnown(r);
    forall c | c in row
      ensures c in r.schema.at && HoldsNew(d, r, body, clock, c, row[c])
    {
      assert c in Elements(columns);
      var i :| 0 <= i < |columns| && columns[i] == c;
      InsertValuesAt(d, r, body, clock, columns, i);
      ColumnInserted(d, r, body, clock, c);
    }
    assert row.Keys == Elements(columns) == StoredColumns(r.schema);
  }

  lemma StoreKept(r: Resource, row: Row, accepted: bool, s: State)
    ensures var (t, out) := SpecStore(r, row, accepted, s);
            && (out.Ok? || out == Err(Rejected))
            && (out.Err? ==> t == s && (accepted ==> Taken(r, row, s)))
            && (out.Ok? ==> out.value == row && accepted && Added(r, row, s, t))
  {
  }

  /** Main result: an insert stores, under a new key, the one row its body, the declared defaults
      and the drawn values make, and nothing else changes; or it is refused for the first column
      that is garbled or missing, or because the key is taken, or by the database. */
  lemma InsertKeepsPromise(d: Dialect, r: Resource, body: Body, clock: Clock, accepted: bool, s: State)
    ensures var (t, out) := SpecInsert(d, r, body, clock, accepted, s);
            InsertKept(d, r, body, clock, accepted, s, t, out)
  {
    KeysKnown(r);
    ColumnsInserted(d, r, body, clock, r.schema.keys);
    var values := InsertValues(d, r, body, clock, Persisted(r));
    if values.Ok? {
      var row := RowOf(Persisted(r), values.value);
      NewRowHolds(d, r, body, clock);
      StoreKept(r, row, accepted, s);
      forall other | NewRow(d, r, body, clock, other)
        ensures other == row
      {
        OneNewRow(d, r, body, clock, row, other);
      }
    }
  }

  // ----- Updates keep theirs -------------------------------------------------

  lemma FieldParsed(d: Dialect, r: Resource, body: Body, f: string)
    requires f in r.schema.at && Changeable(r, f)
    ensures var v := ParseOptional(d, r.schema, body, f);
            && (v.Ok? <==> f !in GarbledFields(d, r, body))
            && (v.Err? ==> v.error == InvalidValue(f))
            && (v.Ok? && Sent(body, f) ==> d.parseJson(r.schema.at[f].fieldType, body[f].doc) == Some(v.value))
            && (v.Ok? && !Sent(body, f) ==> v.value == Null)
  {
  }

  /** The parsed value of a field is what was sent. */
  predicate ParsedAs(d: Dialect, r: Resource, body: Body, f: string, v: Value) {
    f in r.schema.at && f in body
    && if Sent(body, f) then d.parseJson(r.schema.at[f].fieldType, body[f].doc) == Some(v) else v == Null
  }

  /** The values are refused for the first garbled name, or are what was sent for the names. */
  ghost predicate ParsedFor(d: Dialect, r: Resource, body: Body, names: seq<string>,
                            parsed: Result<map<string, Value>, StoreError>) {
    var first := FirstIn(names, GarbledFields(d, r, body));
    if first.Some? then parsed == Err(InvalidValue(first.value))
    else parsed.Ok? && AllParsed(d, r, body, names, parsed.value)
  }

  ghost predicate AllParsed(d: Dialect, r: Resource, body: Body, names: seq<string>, values: map<string, Value>) {
    && (forall f :: f in values <==> f in names && Changeable(r, f) && f in body)
    && (forall f :: f in values ==> ParsedAs(d, r, body, f, values[f]))
  }

  lemma {:induction false} FieldsParsed(d: Dialect, r: Resource, body: Body, names: seq<string>)
    requires forall n :: n in names ==> n in r.schema.at
    ensures ParsedFor(d, r, body, names, ParseBody(d, r, body, MutableAmong(names, r.schema.at)))
  {
    if names != [] {
      var n := |names| - 1;
      var last := names[n];
      FieldsParsed(d, r, body, names[..n]);
      MutableLast(names, r.schema.at);
      var before := ParseBody(d, r, body, MutableAmong(names[..n], r.schema.at));
      if Changeable(r, last) {
        FieldParsed(d, r, body, last);
        BodyAppend(d, r, body, MutableAmong(names[..n], r.schema.at), last);
      }
      if before.Ok? && FirstIn(names, GarbledFields(d, r, body)) == None {
        var v := if Changeable(r, last) then ParseOptional(d, r.schema, body, last).value else Null;
        NamesAppend(d, r, body, names, before.value, v);
      }
    }
  }

  lemma {:induction false} MutableLast(names: seq<string>, at: map<string, FieldSchema>)
    requires names != [] && names[|names| - 1] in at
    ensures var n := |names| - 1;
            MutableAmong(names, at)
            == if IsMutable(at[names[n]]) then MutableAmong(names[..n], at) + [names[n]]
               else MutableAmong(names[..n], at)
  {
  }

  lemma {:induction false} BodyAppend(d: Dialect, r: Resource, body: Body, front: seq<string>, f: string)
    requires (forall g :: g in front ==> g in r.schema.at) && f in r.schema.at
    ensures var before, v := ParseBody(d, r, body, front), ParseOptional(d, r.schema, body, f);
            ParseBody(d, r, body, front + [f])
            == if before.Err? then before
               else if v.Err? then Err(v.error)
               else Ok(if f in body then before.value[f := v.value] else before.value)
  {
    assert (front + [f])[..|front|] == front;
  }

  lemma NamesAppend(d: Dialect, r: Resource, body: Body, names: seq<string>, values: map<string, Value>, v: Value)
    requires names != [] && AllParsed(d, r, body, names[..|names| - 1], values)
    ensures var last := names[|names| - 1];
            && (!Changeable(r, last) || last !in body ==> AllParsed(d, r, body, names, values))
            && (Changeable(r, last) && ParsedAs(d, r, body, last, v) ==>
                  AllParsed(d, r, body, names, values[last := v]))
  {
    assert names == names[..|names| - 1] + [names[|names| - 1]];
  }

  lemma ChangedColumn(d: Dialect, r: Resource, body: Body, id: nat, now: int, values: map<string, Value>, row: Row,
                      c: string)
    requires c in row
    requires forall f :: f in values <==> Changeable(r, f) && f in body
    requires forall f :: f in values ==> ParsedAs(d, r, body, f, values[f])
    ensures HoldsChanged(d, r, body, now, c, row[c], UpdatedColumn(r, Payload(id, values, now), row, c))
  {
    KeysKnown(r);
  }

  lemma SetsKept(r: Resource, p: Payload, accepted: bool, s: State)
    ensures var (t, out) := SpecSets(r, p, accepted, s);
            && (out.Err? ==> t == s)
            && (if p.id !in s.live then out == Err(NotFound) else if !accepted then out == Err(Rejected) else out.Ok?)
            && (out.Ok? ==> out.value == UpdatedRow(r, p, s.live[p.id]) && Replaced(r, p.id, out.value, s, t))
  {
  }

  lemma NamedExactly(d: Dialect, r: Resource, body: Body, values: map<string, Value>)
    requires forall f :: f in values <==> Changeable(r, f) && f in body
    ensures NothingNamed(r, body) <==> MutableFields(r) != [] && values == map[]
  {
    KeysKnown(r);
    assert forall f :: f in MutableFields(r) <==> Changeable(r, f);
    if MutableFields(r) != [] {
      assert MutableFields(r)[0] in MutableFields(r);
    }
    if values != map[] {
      var f :| f in values;
    }
  }

  /** Main result: an update writes into a live row what its body sends, NULL for a null, and the
      time into the stamp, and changes nothing else; or it is refused for the first field that is
      garbled, for naming nothing, for a row that is not live, or by the database. */
  lemma UpdateKeepsPromise(d: Dialect, r: Resource, id: nat, body: Body, now: int, accepted: bool, s: State)
    ensures var (t, out) := SpecUpdate(d, r, id, body, now, accepted, s);
            UpdateKept(d, r, id, body, now, accepted, s, t, out)
  {
    KeysKnown(r);
    FieldsParsed(d, r, body, r.schema.keys);
    var parsed := ParseBody(d, r, body, MutableFields(r));
    if parsed.Ok? {
      var p := Payload(id, parsed.value, now);
      NamedExactly(d, r, body, parsed.value);
      SetsKept(r, p, accepted, s);
      if id in s.live {
        forall c | c in s.live[id] {
          ChangedColumn(d, r, body, id, now, parsed.value, s.live[id], c);
        }
      }
    }
  }

  // ----- Reads and deletes ---------------------------------------------------

  ghost predicate FindKept(id: nat, s: State, out: Outcome) {
    if id in s.live then out == Ok(s.live[id]) else out == Err(NotFound)
  }

  /** A soft delete marks one live row with the time and moves it to the deleted ones. */
  ghost predicate SoftDeleteKept(id: nat, now: int, accepted: bool, s: State, t: State, out: Outcome) {
    && (if id !in s.live then out == Err(NotFound) else if !accepted then out == Err(Rejected) else out.Ok?)
    && (out.Err? ==> t == s)
    && (out.Ok? ==>
          && out.value.Keys == s.live[id].Keys + {"deleted_at"}
          && out.value["deleted_at"] == Timestamp(now)
          && (forall c :: c in s.live[id] && c != "deleted_at" ==> out.value[c] == s.live[id][c])
          && t == State(s.live - {id}, s.dead[id := out.value]))
  }

  /** A hard delete removes one row, live or deleted. */
  ghost predicate HardDeleteKept(id: nat, accepted: bool, s: State, t: State, out: Outcome) {
    && (if id !in s.live && id !in s.dead then out == Err(NotFound)
        else if !accepted then out == Err(Rejected) else out.Ok?)
    && (out.Err? ==> t == s)
    && (out.Ok? ==>
          && (if id in s.live then out.value == s.live[id] else out.value == s.dead[id])
          && t == State(s.live - {id}, s.dead - {id}))
  }

  lemma DeletesKeepPromise(r: Resource, id: nat, now: int, accepted: bool, s: State)
    ensures FindKept(id, s, SpecFind(id, s))
    ensures var (t, out) := SpecHardDelete(id, accepted, s); HardDeleteKept(id, accepted, s, t, out)
    ensures var (t, out) := SpecSoftDelete(r, id, now, accepted, s);
            if r.softDelete then SoftDeleteKept(id, now, accepted, s, t, out)
            else HardDeleteKept(id, accepted, s, t, out)
  {
  }

  // ----- Every request -------------------------------------------------------

  /** What the request may do to the live and deleted rows, and must answer. */
  ghost predicate Kept(d: Dialect, r: Resource, op: Op, s: State, t: State, out: Outcome) {
    match op
    case Find(id) => t == s && FindKept(id, s, out)
    case Insert(body, clock, accepted) => InsertKept(d, r, body, clock, accepted, s, t, out)
    case Update(id, body, now, accepted) => UpdateKept(d, r, id, body, now, accepted, s, t, out)
    case SoftDelete(id, now, accepted) =>
      if r.softDelete then SoftDeleteKept(id, now, accepted, s, t, out) else HardDeleteKept(id, accepted, s, t, out)
    case HardDelete(id, accepted) => HardDeleteKept(id, accepted, s, t, out)
  }

  lemma SpecKeepsPromise(d: Dialect, r: Resource, op: Op, s: State)
    ensures Kept(d, r, op, s, Spec(d, r, op, s).0, Spec(d, r, op, s).1)
  {
    match op
    case Find(id) => DeletesKeepPromise(r, id, 0, true, s);
    case Insert(body, clock, accepted) => InsertKeepsPromise(d, r, body, clock, accepted, s);
    case Update(id, body, now, accepted) => UpdateKeepsPromise(d, r, id, body, now, accepted, s);
    case SoftDelete(id, now, accepted) => DeletesKeepPromise(r, id, now, accepted, s);
    case HardDelete(id, accepted) => DeletesKeepPromise(r, id, 0, accepted, s);
  }

  /** Main result: the generated statements keep every promise on the rows of their table. */
  lemma StatementsKeepPromise(d: Dialect, r: Resource, op: Op, t: Table)
    requires ValidResource(r) && NoShadowing(r) && ValidTable(r, t)
    ensures Kept(d, r, op, View(r, t), View(r, Run(d, r, op, t).0), Run(d, r, op, t).1)
  {
    StepRefines(d, r, op, t);
    SpecKeepsPromise(d, r, op, View(r, t));
  }
}
