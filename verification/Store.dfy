/** The generated store: the table it owns, the statements it runs, and the plain map of live
    rows that its callers may think of instead. */
module Store {
  import opened Prelude
  import opened Values
  import opened Schema
  import opened OrderBy
  import opened ListQuery
  import opened Mutations
  import opened Arrangement
  import K = Keyset

  /** What resource validation guarantees the generator. */
  ghost predicate ValidResource(r: Resource) {
    && PrimaryKey(r) in Persisted(r) && r.schema.at[PrimaryKey(r)].primary
    && (r.softDelete ==> "deleted_at" in Persisted(r) && PrimaryKey(r) != "deleted_at")
    && (Stamps(r) ==> "updated_at" in Persisted(r) && PrimaryKey(r) != "updated_at")
  }

  /** No variable of the generated insert or update captures another, or the request body. */
  ghost predicate NoShadowing(r: Resource) {
    && Uncaptured(Names(UpdateFor(r).decls), Reads(UpdateFor(r).decls))
    && Uncaptured(InsertFor(r).variables, InsertFor(r).fromBody)
  }

  /** Every stored row has exactly the table's columns. */
  ghost predicate Shaped(r: Resource, t: Table) {
    forall id :: id in t ==> t[id].Keys == Elements(Persisted(r))
  }

  ghost predicate ValidTable(r: Resource, t: Table) {
    Keyed(PrimaryKey(r), t) && Shaped(r, t)
  }

  type Outcome = Result<Row, StoreError>

  // ----- Requests ----------------------------------------------------------

  /** `accepted` is the database's verdict on constraints the model does not know. */
  datatype Op =
    | Find(id: nat)
    | Insert(body: Body, clock: Clock, accepted: bool)
    | Update(id: nat, body: Body, now: int, accepted: bool)
    | SoftDelete(id: nat, now: int, accepted: bool)
    | HardDelete(id: nat, accepted: bool)

  /** The present mutable fields with their typed values, or the first that does not parse. */
  function ParseBody(d: Dialect, r: Resource, body: Body, fields: seq<string>): Result<map<string, Value>, StoreError>
    requires forall f :: f in fields ==> f in r.schema.at
  {
    if fields == [] then Ok(map[])
    else
      var n := |fields| - 1;
      match ParseBody(d, r, body, fields[..n])
      case Err(e) => Err(e)
      case Ok(values) =>
        match ParseOptional(d, r.schema, body, fields[n])
        case Err(e) => Err(e)
        case Ok(v) => Ok(if fields[n] in body then values[fields[n] := v] else values)
  }

  // ----- What the generated statements do ----------------------------------

  /** The row a `WHERE pk = $1` statement with the deletion filter finds. */
  function Target(r: Resource, key: Value, t: Table): Option<nat> {
    if key.Uuid? && key.id in t && Live(r, t[key.id]) then Some(key.id) else None
  }

  function RunFind(r: Resource, id: nat, t: Table): Outcome {
    match Target(r, Uuid(id), t)
    case None => Err(NotFound)
    case Some(x) => Ok(t[x])
  }

  function RunInsert(d: Dialect, r: Resource, body: Body, clock: Clock, accepted: bool, t: Table): (Table, Outcome)
    requires NoShadowing(r)
  {
    match InsertValues(d, r, body, clock, Persisted(r))
    case Err(e) => (t, Err(e))
    case Ok(values) =>
      InsertMeansValues(r, values);
      RunStore(r, InsertedRow(InsertFor(r), InsertArgs(InsertFor(r), values).value), accepted, t)
  }

  /** Storing a row fails on a key that is not a uuid, or is taken. */
  function RunStore(r: Resource, row: Row, accepted: bool, t: Table): (Table, Outcome) {
    var key := Col(row, PrimaryKey(r));
    if !key.Uuid? || key.id in t || !accepted then (t, Err(Rejected)) else (t[key.id := row], Ok(row))
  }

  predicate AnyFlag(decls: seq<Decl>, args: seq<Value>)
    requires |decls| == |args|
  {
    exists i :: 0 <= i < |decls| && decls[i].source.PresentFlag? && args[i] == Boolean(true)
  }

  function RunUpdate(d: Dialect, r: Resource, id: nat, body: Body, now: int, accepted: bool, t: Table): (Table, Outcome)
    requires NoShadowing(r)
  {
    match ParseBody(d, r, body, MutableFields(r))
    case Err(e) => (t, Err(e))
    case Ok(values) =>
      var code, p := UpdateFor(r), Payload(id, values, now);
      UncapturedArguments(Names(code.decls), Reads(code.decls), Meanings(code.decls, p));
      var args := UpdateArgs(code.decls, p).value;
      if code.guarded && !AnyFlag(code.decls, args) then (t, Err(EmptyUpdate))
      else RunSets(r, code, args, accepted, t)
  }

  function RunSets(r: Resource, code: UpdateCode, args: seq<Value>, accepted: bool, t: Table): (Table, Outcome) {
    match Target(r, Param(args, 1), t)
    case None => (t, Err(NotFound))
    case Some(x) =>
      var row := ApplySets(code.sets, args, t[x]);
      if accepted then (t[x := row], Ok(row)) else (t, Err(Rejected))
  }

  function RunHardDelete(id: nat, accepted: bool, t: Table): (Table, Outcome) {
    if id !in t then (t, Err(NotFound))
    else if accepted then (t - {id}, Ok(t[id]))
    else (t, Err(Rejected))
  }

  function RunSoftDelete(r: Resource, id: nat, now: int, accepted: bool, t: Table): (Table, Outcome) {
    if !r.softDelete then RunHardDelete(id, accepted, t)
    else
      match Target(r, Uuid(id), t)
      case None => (t, Err(NotFound))
      case Some(x) =>
        var row := t[x]["deleted_at" := Timestamp(now)];
        if accepted then (t[x := row], Ok(row)) else (t, Err(Rejected))
  }

  function Run(d: Dialect, r: Resource, op: Op, t: Table): (Table, Outcome)
    requires NoShadowing(r)
  {
    match op
    case Find(id) => (t, RunFind(r, id, t))
    case Insert(body, clock, ok) => RunInsert(d, r, body, clock, ok, t)
    case Update(id, body, now, ok) => RunUpdate(d, r, id, body, now, ok, t)
    case SoftDelete(id, now, ok) => RunSoftDelete(r, id, now, ok, t)
    case HardDelete(id, ok) => RunHardDelete(id, ok, t)
  }

  // ----- The plain map of live rows ----------------------------------------

  /** Live rows, and the tombstones that only a hard delete can still reach. */
  datatype State = State(live: map<nat, Row>, dead: map<nat, Row>)

  function View(r: Resource, t: Table): State {
    State(map id | id in t && Live(r, t[id]) :: t[id], map id | id in t && !Live(r, t[id]) :: t[id])
  }

  /** Puts a row where its deletion mark says it belongs. */
  function Put(r: Resource, id: nat, row: Row, s: State): State {
    if Live(r, row) then State(s.live[id := row], s.dead - {id}) else State(s.live - {id}, s.dead[id := row])
  }

  /** The row an update promises. */
  function UpdatedRow(r: Resource, p: Payload, row: Row): Row {
    map c | c in row :: UpdatedColumn(r, p, row, c)
  }

  function SpecFind(id: nat, s: State): Outcome {
    if id in s.live then Ok(s.live[id]) else Err(NotFound)
  }

  function SpecInsert(d: Dialect, r: Resource, body: Body, clock: Clock, accepted: bool, s: State): (State, Outcome) {
    match InsertValues(d, r, body, clock, Persisted(r))
    case Err(e) => (s, Err(e))
    case Ok(values) => SpecStore(r, RowOf(Persisted(r), values), accepted, s)
  }

  function SpecStore(r: Resource, row: Row, accepted: bool, s: State): (State, Outcome) {
    var key := Col(row, PrimaryKey(r));
    if !key.Uuid? || key.id in s.live || key.id in s.dead || !accepted then (s, Err(Rejected))
    else (Put(r, key.id, row, s), Ok(row))
  }

  function SpecUpdate(d: Dialect, r: Resource, id: nat, body: Body, now: int, accepted: bool, s: State)
    : (State, Outcome)
  {
    match ParseBody(d, r, body, MutableFields(r))
    case Err(e) => (s, Err(e))
    case Ok(values) =>
      if MutableFields(r) != [] && values == map[] then (s, Err(EmptyUpdate))
      else SpecSets(r, Payload(id, values, now), accepted, s)
  }

  function SpecSets(r: Resource, p: Payload, accepted: bool, s: State): (State, Outcome) {
    if p.id !in s.live then (s, Err(NotFound))
    else if !accepted then (s, Err(Rejected))
    else
      var row := UpdatedRow(r, p, s.live[p.id]);
      (Put(r, p.id, row, s), Ok(row))
  }

  function SpecHardDelete(id: nat, accepted: bool, s: State): (State, Outcome) {
    if id !in s.live && id !in s.dead then (s, Err(NotFound))
    else if !accepted then (s, Err(Rejected))
    else (State(s.live - {id}, s.dead - {id}), Ok(if id in s.live then s.live[id] else s.dead[id]))
  }

  function SpecSoftDelete(r: Resource, id: nat, now: int, accepted: bool, s: State): (State, Outcome) {
    if !r.softDelete then SpecHardDelete(id, accepted, s)
    else if id !in s.live then (s, Err(NotFound))
    else if !accepted then (s, Err(Rejected))
    else
      var row := s.live[id]["deleted_at" := Timestamp(now)];
      (State(s.live - {id}, s.dead[id := row]), Ok(row))
  }

  function Spec(d: Dialect, r: Resource, op: Op, s: State): (State, Outcome) {
    match op
    case Find(id) => (s, SpecFind(id, s))
    case Insert(body, clock, ok) => SpecInsert(d, r, body, clock, ok, s)
    case Update(id, body, now, ok) => SpecUpdate(d, r, id, body, now, ok, s)
    case SoftDelete(id, now, ok) => SpecSoftDelete(r, id, now, ok, s)
    case HardDelete(id, ok) => SpecHardDelete(id, ok, s)
  }

  // ----- One step ----------------------------------------------------------

  /** A statement's effect and answer are the plain map's. */
  ghost predicate Refines(r: Resource, run: (Table, Outcome), spec: (State, Outcome)) {
    run.1 == spec.1 && View(r, run.0) == spec.0 && ValidTable(r, run.0)
  }

  lemma InView(r: Resource, id: nat, t: Table)
    ensures id in t <==> id in View(r, t).live || id in View(r, t).dead
    ensures id in View(r, t).live <==> id in t && Live(r, t[id])
    ensures id in View(r, t).live ==> View(r, t).live[id] == t[id]
    ensures id in View(r, t).dead ==> View(r, t).dead[id] == t[id]
  {
  }

  lemma PutAt(r: Resource, id: nat, row: Row, t: Table, x: nat)
    ensures var after, put := View(r, t[id := row]), Put(r, id, row, View(r, t));
            (x in after.live <==> x in put.live) && (x in after.dead <==> x in put.dead)
  {
  }

  lemma ViewOfPut(r: Resource, id: nat, row: Row, t: Table)
    ensures View(r, t[id := row]) == Put(r, id, row, View(r, t))
  {
    var after, put := View(r, t[id := row]), Put(r, id, row, View(r, t));
    forall x
      ensures x in after.live <==> x in put.live
      ensures x in after.dead <==> x in put.dead
    {
      PutAt(r, id, row, t, x);
    }
    assert after.live == put.live;
    assert after.dead == put.dead;
  }

  lemma ViewOfRemoval(r: Resource, id: nat, t: Table)
    ensures View(r, t - {id}) == State(View(r, t).live - {id}, View(r, t).dead - {id})
  {
  }

  lemma PutKeepsValid(r: Resource, id: nat, row: Row, t: Table)
    requires ValidTable(r, t) && Col(row, PrimaryKey(r)) == Uuid(id) && row.Keys == Elements(Persisted(r))
    ensures ValidTable(r, t[id := row])
  {
  }

  lemma PutRefines(r: Resource, id: nat, row: Row, t: Table, spec: (State, Outcome))
    requires ValidTable(r, t) && Col(row, PrimaryKey(r)) == Uuid(id) && row.Keys == Elements(Persisted(r))
    requires spec == (Put(r, id, row, View(r, t)), Ok(row))
    ensures Refines(r, (t[id := row], Ok(row)), spec)
  {
    ViewOfPut(r, id, row, t);
    PutKeepsValid(r, id, row, t);
  }

  lemma StoreRefines(r: Resource, row: Row, accepted: bool, t: Table)
    requires ValidTable(r, t) && row.Keys == Elements(Persisted(r))
    ensures Refines(r, RunStore(r, row, accepted, t), SpecStore(r, row, accepted, View(r, t)))
  {
    var key := Col(row, PrimaryKey(r));
    if key.Uuid? {
      InView(r, key.id, t);
      if key.id !in t && accepted {
        PutRefines(r, key.id, row, t, SpecStore(r, row, accepted, View(r, t)));
      }
    }
  }

  lemma InsertRefines(d: Dialect, r: Resource, body: Body, clock: Clock, accepted: bool, t: Table)
    requires NoShadowing(r) && ValidTable(r, t)
    ensures Refines(r, RunInsert(d, r, body, clock, accepted, t), SpecInsert(d, r, body, clock, accepted, View(r, t)))
  {
    var parsed := InsertValues(d, r, body, clock, Persisted(r));
    if parsed.Ok? {
      InsertMeansValues(r, parsed.value);
      PersistedDistinct(r);
      RowOfHolds(Persisted(r), parsed.value);
      StoreRefines(r, RowOf(Persisted(r), parsed.value), accepted, t);
    }
  }

  lemma {:induction false} ParseBodyKeys(d: Dialect, r: Resource, body: Body, fields: seq<string>)
    requires forall f :: f in fields ==> f in r.schema.at
    requires ParseBody(d, r, body, fields).Ok?
    ensures forall f :: f in ParseBody(d, r, body, fields).value <==> f in fields && f in body
  {
    if fields != [] {
      var n := |fields| - 1;
      assert fields == fields[..n] + [fields[n]];
      ParseBodyKeys(d, r, body, fields[..n]);
    }
  }

  /** The guard fires exactly when no mutable field is present. */
  lemma GuardMeansEmpty(r: Resource, p: Payload)
    requires forall f :: f in p.values ==> f in MutableFields(r)
    ensures AnyFlag(UpdateFor(r).decls, Meanings(UpdateFor(r).decls, p)) <==> p.values != map[]
  {
    if p.values != map[] {
      var f :| f in p.values;
      var k :| 0 <= k < |MutableFields(r)| && MutableFields(r)[k] == f;
      FlagIsSet(MutableFields(r), UpdateFor(r).decls, p, k);
    } else {
      NoFlagIsSet(UpdateFor(r).decls, p);
    }
  }

  lemma {:induction false} FlagIsSet(fields: seq<string>, decls: seq<Decl>, p: Payload, k: nat)
    requires k < |fields| && FieldDecls(fields) <= decls && fields[k] in p.values
    ensures AnyFlag(decls, Meanings(decls, p))
  {
    FieldDeclAt(fields, k);
    var i := 2 * k + 1;
    assert decls[i] == FieldDecls(fields)[i];
    MeaningAt(decls, p, i);
  }

  lemma NoFlagIsSet(decls: seq<Decl>, p: Payload)
    requires p.values == map[]
    ensures !AnyFlag(decls, Meanings(decls, p))
  {
  }

  lemma UpdateHitsTarget(r: Resource, p: Payload)
    ensures Param(Meanings(UpdateFor(r).decls, p), 1) == Uuid(p.id)
  {
    FirstDeclIsId(MutableFields(r));
    MeaningAt(UpdateFor(r).decls, p, 0);
    assert UpdateFor(r).decls[0] == FieldDecls(MutableFields(r))[0];
  }

  lemma {:induction false} FirstDeclIsId(fields: seq<string>)
    ensures FieldDecls(fields)[0] == Decl("id", RowId)
  {
    if fields != [] {
      FirstDeclIsId(fields[..|fields| - 1]);
    }
  }

  lemma MutableIsPersisted(r: Resource, f: string)
    requires f in MutableFields(r)
    ensures f in Persisted(r)
  {
  }

  lemma ColumnsPresent(r: Resource, row: Row)
    requires ValidResource(r) && row.Keys == Elements(Persisted(r))
    ensures forall f :: f in MutableFields(r) ==> f in row
    ensures Stamps(r) ==> "updated_at" in row
    ensures PrimaryKey(r) in row && PrimaryKey(r) !in MutableFields(r)
  {
    forall f | f in MutableFields(r)
      ensures f in row
    {
      MutableIsPersisted(r, f);
      assert f in Elements(Persisted(r));
    }
    if Stamps(r) {
      assert "updated_at" in Elements(Persisted(r));
    }
    assert PrimaryKey(r) in Elements(Persisted(r));
  }

  lemma IsUpdatedUnique(r: Resource, p: Payload, row: Row, result: Row)
    requires IsUpdated(r, p, row, result)
    ensures result == UpdatedRow(r, p, row)
  {
  }

  /** On a stored row the emitted SET list produces the promised row, under the same key. */
  lemma {:induction false} UpdateRowExact(r: Resource, p: Payload, row: Row)
    requires ValidResource(r) && NoShadowing(r) && row.Keys == Elements(Persisted(r))
    ensures ApplySets(UpdateFor(r).sets, Meanings(UpdateFor(r).decls, p), row) == UpdatedRow(r, p, row)
  {
    ColumnsPresent(r, row);
    UncapturedArguments(Names(UpdateFor(r).decls), Reads(UpdateFor(r).decls), Meanings(UpdateFor(r).decls, p));
    UpdateMeansPayload(r, p, row);
    IsUpdatedUnique(r, p, row, ApplySets(UpdateFor(r).sets, Meanings(UpdateFor(r).decls, p), row));
  }

  lemma UpdatedFits(r: Resource, p: Payload, row: Row)
    requires ValidResource(r) && row.Keys == Elements(Persisted(r))
    ensures UpdatedRow(r, p, row).Keys == Elements(Persisted(r))
    ensures Col(UpdatedRow(r, p, row), PrimaryKey(r)) == Col(row, PrimaryKey(r))
  {
    ColumnsPresent(r, row);
    assert PrimaryKey(r) != "updated_at" || !Stamps(r);
  }

  lemma {:induction false} RunSetsHit(r: Resource, code: UpdateCode, args: seq<Value>, id: nat, t: Table)
    requires Param(args, 1) == Uuid(id) && id in t && Live(r, t[id])
    ensures var row := ApplySets(code.sets, args, t[id]);
            RunSets(r, code, args, true, t) == (t[id := row], Ok(row))
  {
  }

  lemma SetsHit(r: Resource, p: Payload, t: Table)
    requires ValidResource(r) && NoShadowing(r) && ValidTable(r, t) && p.id in t && Live(r, t[p.id])
    ensures RunSets(r, UpdateFor(r), Meanings(UpdateFor(r).decls, p), true, t)
            == (t[p.id := UpdatedRow(r, p, t[p.id])], Ok(UpdatedRow(r, p, t[p.id])))
  {
    UpdateHitsTarget(r, p);
    RunSetsHit(r, UpdateFor(r), Meanings(UpdateFor(r).decls, p), p.id, t);
    UpdateRowExact(r, p, t[p.id]);
  }

  lemma SetsHitRefines(r: Resource, p: Payload, t: Table)
    requires ValidResource(r) && NoShadowing(r) && ValidTable(r, t) && p.id in t && Live(r, t[p.id])
    ensures Refines(r, RunSets(r, UpdateFor(r), Meanings(UpdateFor(r).decls, p), true, t),
                    SpecSets(r, p, true, View(r, t)))
  {
    InView(r, p.id, t);
    SetsHit(r, p, t);
    UpdatedFits(r, p, t[p.id]);
    PutRefines(r, p.id, UpdatedRow(r, p, t[p.id]), t, SpecSets(r, p, true, View(r, t)));
  }

  lemma SetsRefine(r: Resource, p: Payload, accepted: bool, t: Table)
    requires ValidResource(r) && NoShadowing(r) && ValidTable(r, t)
    ensures Refines(r, RunSets(r, UpdateFor(r), Meanings(UpdateFor(r).decls, p), accepted, t),
                    SpecSets(r, p, accepted, View(r, t)))
  {
    if p.id in t && Live(r, t[p.id]) && accepted {
      SetsHitRefines(r, p, t);
    } else {
      InView(r, p.id, t);
      UpdateHitsTarget(r, p);
    }
  }

  lemma UpdateRefines(d: Dialect, r: Resource, id: nat, body: Body, now: int, accepted: bool, t: Table)
    requires ValidResource(r) && NoShadowing(r) && ValidTable(r, t)
    ensures Refines(r, RunUpdate(d, r, id, body, now, accepted, t),
                    SpecUpdate(d, r, id, body, now, accepted, View(r, t)))
  {
    var parsed := ParseBody(d, r, body, MutableFields(r));
    if parsed.Ok? {
      var p := Payload(id, parsed.value, now);
      UncapturedArguments(Names(UpdateFor(r).decls), Reads(UpdateFor(r).decls), Meanings(UpdateFor(r).decls, p));
      ParseBodyKeys(d, r, body, MutableFields(r));
      GuardMeansEmpty(r, p);
      SetsRefine(r, p, accepted, t);
    }
  }

  lemma HardDeleteRefines(r: Resource, id: nat, accepted: bool, t: Table)
    requires ValidTable(r, t)
    ensures Refines(r, RunHardDelete(id, accepted, t), SpecHardDelete(id, accepted, View(r, t)))
  {
    InView(r, id, t);
    ViewOfRemoval(r, id, t);
  }

  /** A row with its deletion mark set is put among the dead. */
  lemma MarkedIsDead(r: Resource, id: nat, row: Row, now: int, s: State)
    requires r.softDelete
    ensures var marked := row["deleted_at" := Timestamp(now)];
            Put(r, id, marked, s) == State(s.live - {id}, s.dead[id := marked])
  {
  }

  function Marked(row: Row, now: int): Row {
    row["deleted_at" := Timestamp(now)]
  }

  lemma SoftDeleteHit(r: Resource, id: nat, now: int, t: Table)
    requires r.softDelete && id in t && Live(r, t[id])
    ensures SpecSoftDelete(r, id, now, true, View(r, t))
            == (Put(r, id, Marked(t[id], now), View(r, t)), Ok(Marked(t[id], now)))
  {
    InView(r, id, t);
    MarkedIsDead(r, id, t[id], now, View(r, t));
  }

  lemma MarkedFits(r: Resource, row: Row, now: int)
    requires ValidResource(r) && r.softDelete && row.Keys == Elements(Persisted(r))
    ensures Marked(row, now).Keys == Elements(Persisted(r))
            && Col(Marked(row, now), PrimaryKey(r)) == Col(row, PrimaryKey(r))
  {
    assert "deleted_at" in Elements(Persisted(r));
  }

  lemma SoftDeleteHitRefines(r: Resource, id: nat, now: int, t: Table)
    requires ValidResource(r) && ValidTable(r, t) && r.softDelete && id in t && Live(r, t[id])
    ensures Refines(r, RunSoftDelete(r, id, now, true, t), SpecSoftDelete(r, id, now, true, View(r, t)))
  {
    SoftDeleteHit(r, id, now, t);
    MarkedFits(r, t[id], now);
    PutRefines(r, id, Marked(t[id], now), t, SpecSoftDelete(r, id, now, true, View(r, t)));
  }

  lemma SoftDeleteMiss(r: Resource, id: nat, now: int, accepted: bool, t: Table)
    requires r.softDelete && ValidTable(r, t) && !(id in t && Live(r, t[id]) && accepted)
    ensures Refines(r, RunSoftDelete(r, id, now, accepted, t), SpecSoftDelete(r, id, now, accepted, View(r, t)))
  {
    InView(r, id, t);
  }

  lemma SoftDeleteRefines(r: Resource, id: nat, now: int, accepted: bool, t: Table)
    requires ValidResource(r) && ValidTable(r, t)
    ensures Refines(r, RunSoftDelete(r, id, now, accepted, t), SpecSoftDelete(r, id, now, accepted, View(r, t)))
  {
    if !r.softDelete {
      HardDeleteRefines(r, id, accepted, t);
    } else if id in t && Live(r, t[id]) && accepted {
      SoftDeleteHitRefines(r, id, now, t);
    } else {
      SoftDeleteMiss(r, id, now, accepted, t);
    }
  }

  /** Main result, one request: the generated statements do to the live rows, and answer, what
      the plain map does. */
  lemma StepRefines(d: Dialect, r: Resource, op: Op, t: Table)
    requires ValidResource(r) && NoShadowing(r) && ValidTable(r, t)
    ensures Refines(r, Run(d, r, op, t), Spec(d, r, op, View(r, t)))
  {
    match op
    case Find(id) => InView(r, id, t);
    case Insert(body, clock, ok) => InsertRefines(d, r, body, clock, ok, t);
    case Update(id, body, now, ok) => UpdateRefines(d, r, id, body, now, ok, t);
    case SoftDelete(id, now, ok) => SoftDeleteRefines(r, id, now, ok, t);
    case HardDelete(id, ok) => HardDeleteRefines(r, id, ok, t);
  }

  /** A soft delete that succeeds takes the row out of the live view, and out of every listing. */
  lemma SoftDeleteHides(d: Dialect, r: Resource, ep: EndpointSpec, parsed: seq<Value>, req: Request,
                        after: Option<nat>, t: Table, id: nat, now: int)
    requires ValidResource(r) && ValidTable(r, t) && r.softDelete && FieldsKnown(r, ep) && |parsed| == |ep.filters|
    requires RunSoftDelete(r, id, now, true, t).1.Ok?
    ensures var t' := RunSoftDelete(r, id, now, true, t).0;
            id in View(r, t).live && id !in View(r, t').live && id in View(r, t').dead
            && id !in WantedAfter(d, r, ep, parsed, req, after, t')
  {
  }

  // ----- The store object --------------------------------------------------

  class GeneratedStore {
    const d: Dialect
    const r: Resource
    var table: Table

    ghost predicate Valid()
      reads this
    {
      ValidResource(r) && NoShadowing(r) && ValidTable(r, table)
    }

    constructor (d: Dialect, r: Resource)
      requires ValidResource(r) && NoShadowing(r)
      ensures Valid() && this.d == d && this.r == r && table == map[]
    {
      this.d := d;
      this.r := r;
      table := map[];
    }

    method FindById(id: nat) returns (res: Outcome)
      requires Valid()
      ensures res == SpecFind(id, View(r, table))
    {
      if id in table && Live(r, table[id]) {
        res := Ok(table[id]);
      } else {
        res := Err(NotFound);
      }
    }

    method InsertRow(body: Body, clock: Clock, accepted: bool) returns (res: Outcome)
      requires Valid()
      modifies this
      ensures Valid()
      ensures (View(r, table), res) == SpecInsert(d, r, body, clock, accepted, old(View(r, table)))
    {
      InsertRefines(d, r, body, clock, accepted, table);
      var parsed := InsertValues(d, r, body, clock, Persisted(r));
      if parsed.Err? {
        return Err(parsed.error);
      }
      var code := GenerateInsertBody(r);
      InsertMeansValues(r, parsed.value);
      var row := InsertedRow(code, InsertArgs(code, parsed.value).value);
      var key := Col(row, PrimaryKey(r));
      if !key.Uuid? || key.id in table || !accepted {
        return Err(Rejected);
      }
      table := table[key.id := row];
      return Ok(row);
    }

    method UpdateById(id: nat, body: Body, now: int, accepted: bool) returns (res: Outcome)
      requires Valid()
      modifies this
      ensures Valid()
      ensures (View(r, table), res) == SpecUpdate(d, r, id, body, now, accepted, old(View(r, table)))
    {
      UpdateRefines(d, r, id, body, now, accepted, table);
      var parsed := ParseBody(d, r, body, MutableFields(r));
      if parsed.Err? {
        return Err(parsed.error);
      }
      var code := GenerateUpdateBody(r);
      UncapturedArguments(Names(code.decls), Reads(code.decls), Meanings(code.decls, Payload(id, parsed.value, now)));
      var args := UpdateArgs(code.decls, Payload(id, parsed.value, now)).value;
      if code.guarded && !AnyFlag(code.decls, args) {
        return Err(EmptyUpdate);
      }
      res := RunStatement(code, args, accepted);
    }

    /** UPDATE ... SET ... WHERE pk = $1 AND deleted_at IS NULL RETURNING the row. */
    method RunStatement(code: UpdateCode, args: seq<Value>, accepted: bool) returns (res: Outcome)
      modifies this
      ensures (table, res) == RunSets(r, code, args, accepted, old(table))
    {
      var target := Target(r, Param(args, 1), table);
      if target.None? {
        return Err(NotFound);
      }
      var row := ApplySets(code.sets, args, table[target.value]);
      if !accepted {
        return Err(Rejected);
      }
      table := table[target.value := row];
      return Ok(row);
    }

    method HardDeleteById(id: nat, accepted: bool) returns (res: Outcome)
      requires Valid()
      modifies this
      ensures Valid()
      ensures (View(r, table), res) == SpecHardDelete(id, accepted, old(View(r, table)))
    {
      HardDeleteRefines(r, id, accepted, table);
      if id !in table {
        return Err(NotFound);
      }
      if !accepted {
        return Err(Rejected);
      }
      res := Ok(table[id]);
      table := table - {id};
    }

    method SoftDeleteById(id: nat, now: int, accepted: bool) returns (res: Outcome)
      requires Valid()
      modifies this
      ensures Valid()
      ensures (View(r, table), res) == SpecSoftDelete(r, id, now, accepted, old(View(r, table)))
    {
      SoftDeleteRefines(r, id, now, accepted, table);
      if !r.softDelete {
        res := HardDeleteById(id, accepted);
        return;
      }
      if id !in table || !Live(r, table[id]) {
        return Err(NotFound);
      }
      if !accepted {
        return Err(Rejected);
      }
      var row := table[id]["deleted_at" := Timestamp(now)];
      table := table[id := row];
      return Ok(row);
    }

    /** Cursor mode of the list helper: run the statement for one row more than asked, and cut. */
    method FindAllAfter(ep: EndpointSpec, req: Request, after: Option<nat>, limit: nat)
      returns (res: Result<K.Page, string>)
      requires Valid() && FieldsKnown(r, ep) && NoCapture(ep.filters) && limit >= 1
      ensures match ParseFilters(d, r.schema, req.filters, ep.filters)
              case Err(f) => res == Err(f)
              case Ok(parsed) =>
                res == Ok(K.PageOf(Window(Listing(d, r, ep, parsed, req, after, table), 0, limit + 1), limit))
    {
      var parsed := ParseFilters(d, r.schema, req.filters, ep.filters);
      if parsed.Err? {
        return Err(parsed.error);
      }
      ParsedConsistent(d, r.schema, req.filters, ep.filters);
      var rows := FetchAfter(ep, req, parsed.value, after, limit);
      var page := CutPage(rows, limit);
      res := Ok(page);
    }

    method FetchAfter(ep: EndpointSpec, req: Request, parsed: seq<Value>, after: Option<nat>, limit: nat)
      returns (rows: seq<nat>)
      requires Valid() && FieldsKnown(r, ep) && NoCapture(ep.filters)
      requires |parsed| == |ep.filters| && Consistent(ep.filters, parsed)
      ensures rows == Window(Listing(d, r, ep, parsed, req, after, table), 0, limit + 1)
    {
      var helper := GenerateListHelper(r, ep);
      CursorQueryExact(d, r, ep, helper.value, parsed, req, after, limit, table);
      rows := CursorRows(d, helper.value, PrimaryKey(r), parsed, req, after, limit, table);
    }

    /** Offset mode of the list helper: the page and the total. */
    method FindAllFrom(ep: EndpointSpec, req: Request, offset: nat, limit: nat)
      returns (res: Result<(seq<nat>, nat), string>)
      requires Valid() && FieldsKnown(r, ep) && NoCapture(ep.filters)
      ensures match ParseFilters(d, r.schema, req.filters, ep.filters)
              case Err(f) => res == Err(f)
              case Ok(parsed) =>
                var listing := Listing(d, r, ep, parsed, req, None, table);
                res == Ok((Window(listing, offset, limit), |listing|))
    {
      var parsed := ParseFilters(d, r.schema, req.filters, ep.filters);
      if parsed.Err? {
        return Err(parsed.error);
      }
      ParsedConsistent(d, r.schema, req.filters, ep.filters);
      var total := CountAll(ep, req, parsed.value, Offset(offset, limit));
      var rows := FetchWindow(ep, req, parsed.value, offset, limit);
      res := Ok((rows, total));
    }

    method FetchWindow(ep: EndpointSpec, req: Request, parsed: seq<Value>, offset: nat, limit: nat)
      returns (rows: seq<nat>)
      requires Valid() && FieldsKnown(r, ep) && NoCapture(ep.filters)
      requires |parsed| == |ep.filters| && Consistent(ep.filters, parsed)
      ensures rows == Window(Listing(d, r, ep, parsed, req, None, table), offset, limit)
    {
      var helper := GenerateListHelper(r, ep);
      OffsetQueryExact(d, r, ep, helper.value, parsed, req, offset, limit, table);
      rows := OffsetRows(d, helper.value, PrimaryKey(r), parsed, req, offset, limit, table);
    }

    method CountAll(ep: EndpointSpec, req: Request, parsed: seq<Value>, page: PageRequest) returns (total: nat)
      requires Valid() && FieldsKnown(r, ep) && NoCapture(ep.filters)
      requires |parsed| == |ep.filters| && Consistent(ep.filters, parsed)
      ensures total == |Listing(d, r, ep, parsed, req, None, table)|
    {
      var helper := GenerateListHelper(r, ep);
      TotalExact(d, r, ep, helper.value, parsed, req, page, table);
      total := CountedRows(d, helper.value, parsed, req, page, table);
    }
  }

  /** Drops the extra row and takes the last row shown as cursor. */
  method CutPage(rows: seq<nat>, limit: nat) returns (page: K.Page)
    requires limit >= 1
    ensures page == K.PageOf(rows, limit)
  {
    var hasMore := |rows| > limit;
    var shown := rows;
    var cursor := None;
    if hasMore {
      shown := shown[..limit];
      cursor := Some(shown[|shown| - 1]);
    }
    page := K.Page(shown, cursor, hasMore);
  }
}
