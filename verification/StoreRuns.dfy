/** Whole runs of the generated store, list requests included. */
module StoreRuns {
  import opened Prelude
  import opened Values
  import opened Schema
  import opened OrderBy
  import opened Arrangement
  import opened ListQuery
  import opened Mutations
  import opened Store
  import K = Keyset
  import P = Paging

  // ----- Requests and replies ----------------------------------------------

  datatype Call =
    | Do(op: Op)
    | List(ep: EndpointSpec, req: Request, page: PageRequest)

  datatype Reply =
    | Did(outcome: Outcome)
    | BadFilter(field: string)
    | OnePage(shown: K.Page)
    | OneWindow(rows: seq<nat>, total: nat)

  /** The list helper of the endpoint exists, and none of its filter variables is captured. */
  ghost predicate Servable(r: Resource, call: Call) {
    call.List? ==> FieldsKnown(r, call.ep) && NoCapture(call.ep.filters)
  }

  ghost predicate AllServable(r: Resource, calls: seq<Call>) {
    forall i :: 0 <= i < |calls| ==> Servable(r, calls[i])
  }

  /** What the cursor branch of the emitted helper returns, cut to a page. */
  function RunCursor(d: Dialect, r: Resource, ep: EndpointSpec, req: Request, page: PageRequest,
                     parsed: seq<Value>, t: Table): Reply
    requires FieldsKnown(r, ep) && Keyed(PrimaryKey(r), t) && |parsed| == |ep.filters| && page.Cursor?
  {
    var h := HelperFor(r, ep);
    HelperEndsWithKey(r, ep, h);
    OnePage(K.PageOf(CursorRows(d, h, PrimaryKey(r), parsed, req, page.after, page.limit, t), page.limit))
  }

  /** What its offset branch returns. */
  function RunOffset(d: Dialect, r: Resource, ep: EndpointSpec, req: Request, page: PageRequest,
                     parsed: seq<Value>, t: Table): Reply
    requires FieldsKnown(r, ep) && Keyed(PrimaryKey(r), t) && |parsed| == |ep.filters| && page.Offset?
  {
    var h := HelperFor(r, ep);
    HelperEndsWithKey(r, ep, h);
    OneWindow(OffsetRows(d, h, PrimaryKey(r), parsed, req, page.offset, page.limit, t),
              CountedRows(d, h, parsed, req, page, t))
  }

  function RunList(d: Dialect, r: Resource, ep: EndpointSpec, req: Request, page: PageRequest, t: Table): Reply
    requires FieldsKnown(r, ep) && Keyed(PrimaryKey(r), t)
  {
    match ParseFilters(d, r.schema, req.filters, ep.filters)
    case Err(f) => BadFilter(f)
    case Ok(parsed) =>
      if page.Cursor? then RunCursor(d, r, ep, req, page, parsed, t) else RunOffset(d, r, ep, req, page, parsed, t)
  }

  /** The same said of the live rows alone. */
  ghost function SpecCursor(d: Dialect, r: Resource, ep: EndpointSpec, req: Request, page: PageRequest,
                            parsed: seq<Value>, live: Table): Reply
    requires FieldsKnown(r, ep) && Keyed(PrimaryKey(r), live) && |parsed| == |ep.filters| && page.Cursor?
  {
    OnePage(K.PageOf(Window(Listing(d, r, ep, parsed, req, page.after, live), 0, page.limit + 1), page.limit))
  }

  ghost function SpecOffset(d: Dialect, r: Resource, ep: EndpointSpec, req: Request, page: PageRequest,
                            parsed: seq<Value>, live: Table): Reply
    requires FieldsKnown(r, ep) && Keyed(PrimaryKey(r), live) && |parsed| == |ep.filters| && page.Offset?
  {
    var listing := Listing(d, r, ep, parsed, req, None, live);
    OneWindow(Window(listing, page.offset, page.limit), |listing|)
  }

  ghost function SpecList(d: Dialect, r: Resource, ep: EndpointSpec, req: Request, page: PageRequest,
                          live: Table): Reply
    requires FieldsKnown(r, ep) && Keyed(PrimaryKey(r), live)
  {
    match ParseFilters(d, r.schema, req.filters, ep.filters)
    case Err(f) => BadFilter(f)
    case Ok(parsed) =>
      if page.Cursor? then SpecCursor(d, r, ep, req, page, parsed, live)
      else SpecOffset(d, r, ep, req, page, parsed, live)
  }

  function Serve(d: Dialect, r: Resource, call: Call, t: Table): (Table, Reply)
    requires NoShadowing(r) && Servable(r, call) && Keyed(PrimaryKey(r), t)
  {
    match call
    case Do(op) =>
      var (after, outcome) := Run(d, r, op, t);
      (after, Did(outcome))
    case List(ep, req, page) => (t, RunList(d, r, ep, req, page, t))
  }

  ghost function SpecServe(d: Dialect, r: Resource, call: Call, s: State): (State, Reply)
    requires Servable(r, call) && Keyed(PrimaryKey(r), s.live)
  {
    match call
    case Do(op) =>
      var (after, outcome) := Spec(d, r, op, s);
      (after, Did(outcome))
    case List(ep, req, page) => (s, SpecList(d, r, ep, req, page, s.live))
  }

  // ----- Lists read the live rows ------------------------------------------

  lemma WantedAreLive(d: Dialect, r: Resource, ep: EndpointSpec, parsed: seq<Value>, req: Request,
                      after: Option<nat>, t: Table)
    requires |parsed| == |ep.filters|
    ensures WantedAfter(d, r, ep, parsed, req, after, t) == WantedAfter(d, r, ep, parsed, req, after, View(r, t).live)
  {
    forall id {
      InView(r, id, t);
    }
  }

  lemma LiveIsKeyed(r: Resource, t: Table)
    requires ValidTable(r, t)
    ensures ValidTable(r, View(r, t).live)
  {
  }

  lemma SameOrderOnLive(d: Dialect, r: Resource, ep: EndpointSpec, sort: seq<SortField>, t: Table, live: Table,
                        x: nat, y: nat)
    requires FieldsKnown(r, ep) && x in live && y in live && x in t && y in t && live[x] == t[x] && live[y] == t[y]
    ensures RequestedOrder(d, r, ep, sort, t)(x, y) == RequestedOrder(d, r, ep, sort, live)(x, y)
  {
  }

  /** The listing of a table is the listing of its live rows. */
  lemma ListingReadsLive(d: Dialect, r: Resource, ep: EndpointSpec, parsed: seq<Value>, req: Request,
                         after: Option<nat>, t: Table)
    requires FieldsKnown(r, ep) && |parsed| == |ep.filters| && ValidTable(r, t)
    ensures ValidTable(r, View(r, t).live)
    ensures Listing(d, r, ep, parsed, req, after, t) == Listing(d, r, ep, parsed, req, after, View(r, t).live)
  {
    var live := View(r, t).live;
    var ids := WantedAfter(d, r, ep, parsed, req, after, t);
    LiveIsKeyed(r, t);
    WantedAreLive(d, r, ep, parsed, req, after, t);
    RequestedIsTotal(d, r, ep, req.sort, t, ids);
    forall x, y | x in ids && y in ids
      ensures RequestedOrder(d, r, ep, req.sort, t)(x, y) == RequestedOrder(d, r, ep, req.sort, live)(x, y)
    {
      SameOrderOnLive(d, r, ep, req.sort, t, live, x, y);
    }
    ArrangeAgrees(ids, RequestedOrder(d, r, ep, req.sort, t), RequestedOrder(d, r, ep, req.sort, live));
  }

  lemma CursorListRefines(d: Dialect, r: Resource, ep: EndpointSpec, req: Request, page: PageRequest,
                          parsed: seq<Value>, t: Table)
    requires FieldsKnown(r, ep) && NoCapture(ep.filters) && ValidTable(r, t) && page.Cursor?
    requires |parsed| == |ep.filters| && Consistent(ep.filters, parsed)
    ensures ValidTable(r, View(r, t).live)
    ensures RunCursor(d, r, ep, req, page, parsed, t) == SpecCursor(d, r, ep, req, page, parsed, View(r, t).live)
  {
    CursorQueryExact(d, r, ep, HelperFor(r, ep), parsed, req, page.after, page.limit, t);
    ListingReadsLive(d, r, ep, parsed, req, page.after, t);
  }

  lemma OffsetListRefines(d: Dialect, r: Resource, ep: EndpointSpec, req: Request, page: PageRequest,
                          parsed: seq<Value>, t: Table)
    requires FieldsKnown(r, ep) && NoCapture(ep.filters) && ValidTable(r, t) && page.Offset?
    requires |parsed| == |ep.filters| && Consistent(ep.filters, parsed)
    ensures ValidTable(r, View(r, t).live)
    ensures RunOffset(d, r, ep, req, page, parsed, t) == SpecOffset(d, r, ep, req, page, parsed, View(r, t).live)
  {
    OffsetQueryExact(d, r, ep, HelperFor(r, ep), parsed, req, page.offset, page.limit, t);
    TotalExact(d, r, ep, HelperFor(r, ep), parsed, req, page, t);
    ListingReadsLive(d, r, ep, parsed, req, None, t);
  }

  lemma ListRefines(d: Dialect, r: Resource, ep: EndpointSpec, req: Request, page: PageRequest, t: Table)
    requires FieldsKnown(r, ep) && NoCapture(ep.filters) && ValidTable(r, t)
    ensures ValidTable(r, View(r, t).live)
    ensures RunList(d, r, ep, req, page, t) == SpecList(d, r, ep, req, page, View(r, t).live)
  {
    LiveIsKeyed(r, t);
    var parsed := ParseFilters(d, r.schema, req.filters, ep.filters);
    if parsed.Ok? {
      ParsedConsistent(d, r.schema, req.filters, ep.filters);
      if page.Cursor? {
        CursorListRefines(d, r, ep, req, page, parsed.value, t);
      } else {
        OffsetListRefines(d, r, ep, req, page, parsed.value, t);
      }
    }
  }

  /** One call, list requests included, does to the live rows, and replies, what the plain map
      does. */
  lemma ServeRefines(d: Dialect, r: Resource, call: Call, t: Table)
    requires ValidResource(r) && NoShadowing(r) && Servable(r, call) && ValidTable(r, t)
    ensures var served := Serve(d, r, call, t);
            && ValidTable(r, served.0) && ValidTable(r, View(r, t).live)
            && (View(r, served.0), served.1) == SpecServe(d, r, call, View(r, t))
  {
    LiveIsKeyed(r, t);
    match call
    case Do(op) => StepRefines(d, r, op, t);
    case List(ep, req, page) => ListRefines(d, r, ep, req, page, t);
  }

  // ----- Runs ---------------------------------------------------------------

  function RunAll(d: Dialect, r: Resource, calls: seq<Call>, t: Table): (res: (Table, seq<Reply>))
    requires ValidResource(r) && NoShadowing(r) && AllServable(r, calls) && ValidTable(r, t)
    ensures |res.1| == |calls| && ValidTable(r, res.0)
  {
    if calls == [] then (t, [])
    else
      var n := |calls| - 1;
      var before := RunAll(d, r, calls[..n], t);
      ServeRefines(d, r, calls[n], before.0);
      var last := Serve(d, r, calls[n], before.0);
      (last.0, before.1 + [last.1])
  }

  lemma RemovalKeepsValid(r: Resource, id: nat, live: Table)
    requires ValidTable(r, live)
    ensures ValidTable(r, live - {id})
  {
  }

  lemma SpecPutKeepsValid(r: Resource, id: nat, row: Row, s: State)
    requires ValidTable(r, s.live) && Col(row, PrimaryKey(r)) == Uuid(id) && row.Keys == Elements(Persisted(r))
    ensures ValidTable(r, Put(r, id, row, s).live)
  {
    PutKeepsValid(r, id, row, s.live);
    RemovalKeepsValid(r, id, s.live);
  }

  lemma SpecStoreKeepsValid(r: Resource, row: Row, accepted: bool, s: State)
    requires ValidTable(r, s.live) && row.Keys == Elements(Persisted(r))
    ensures ValidTable(r, SpecStore(r, row, accepted, s).0.live)
  {
    var key := Col(row, PrimaryKey(r));
    if key.Uuid? {
      SpecPutKeepsValid(r, key.id, row, s);
    }
  }

  lemma SpecSetsKeepsValid(r: Resource, p: Payload, accepted: bool, s: State)
    requires ValidResource(r) && ValidTable(r, s.live)
    ensures ValidTable(r, SpecSets(r, p, accepted, s).0.live)
  {
    if p.id in s.live {
      UpdatedFits(r, p, s.live[p.id]);
      SpecPutKeepsValid(r, p.id, UpdatedRow(r, p, s.live[p.id]), s);
    }
  }

  lemma SpecInsertKeepsValid(d: Dialect, r: Resource, body: Body, clock: Clock, accepted: bool, s: State)
    requires ValidTable(r, s.live)
    ensures ValidTable(r, SpecInsert(d, r, body, clock, accepted, s).0.live)
  {
    var values := InsertValues(d, r, body, clock, Persisted(r));
    if values.Ok? {
      PersistedDistinct(r);
      RowOfHolds(Persisted(r), values.value);
      SpecStoreKeepsValid(r, RowOf(Persisted(r), values.value), accepted, s);
    }
  }

  lemma SpecUpdateKeepsValid(d: Dialect, r: Resource, id: nat, body: Body, now: int, accepted: bool, s: State)
    requires ValidResource(r) && ValidTable(r, s.live)
    ensures ValidTable(r, SpecUpdate(d, r, id, body, now, accepted, s).0.live)
  {
    var parsed := ParseBody(d, r, body, MutableFields(r));
    if parsed.Ok? {
      SpecSetsKeepsValid(r, Payload(id, parsed.value, now), accepted, s);
    }
  }

  lemma SpecKeepsValid(d: Dialect, r: Resource, op: Op, s: State)
    requires ValidResource(r) && ValidTable(r, s.live)
    ensures ValidTable(r, Spec(d, r, op, s).0.live)
  {
    match op
    case Find(id) =>
    case Insert(body, clock, ok) => SpecInsertKeepsValid(d, r, body, clock, ok, s);
    case Update(id, body, now, ok) => SpecUpdateKeepsValid(d, r, id, body, now, ok, s);
    case SoftDelete(id, now, ok) => RemovalKeepsValid(r, id, s.live);
    case HardDelete(id, ok) => RemovalKeepsValid(r, id, s.live);
  }

  lemma ServeKeepsValid(d: Dialect, r: Resource, call: Call, s: State)
    requires ValidResource(r) && Servable(r, call) && ValidTable(r, s.live)
    ensures ValidTable(r, SpecServe(d, r, call, s).0.live)
  {
    if call.Do? {
      SpecKeepsValid(d, r, call.op, s);
    }
  }

  /** The plain map's run. */
  ghost function SpecAll(d: Dialect, r: Resource, calls: seq<Call>, s: State): (res: (State, seq<Reply>))
    requires ValidResource(r) && AllServable(r, calls) && ValidTable(r, s.live)
    ensures |res.1| == |calls| && ValidTable(r, res.0.live)
  {
    if calls == [] then (s, [])
    else
      var n := |calls| - 1;
      var before := SpecAll(d, r, calls[..n], s);
      ServeKeepsValid(d, r, calls[n], before.0);
      var last := SpecServe(d, r, calls[n], before.0);
      (last.0, before.1 + [last.1])
  }

  /** Main result, every run: inserts, updates, deletes, reads and lists in any order change and
      answer what the plain map of live rows does. */
  lemma {:induction false} RunRefines(d: Dialect, r: Resource, calls: seq<Call>, t: Table)
    requires ValidResource(r) && NoShadowing(r) && AllServable(r, calls) && ValidTable(r, t)
    ensures ValidTable(r, View(r, t).live)
    ensures var ran := RunAll(d, r, calls, t);
            (View(r, ran.0), ran.1) == SpecAll(d, r, calls, View(r, t))
  {
    LiveIsKeyed(r, t);
    if calls != [] {
      var n := |calls| - 1;
      RunRefines(d, r, calls[..n], t);
      ServeRefines(d, r, calls[n], RunAll(d, r, calls[..n], t).0);
    }
  }

  // ----- Deleted rows stay deleted ------------------------------------------

  /** The key an insert would store its row under. */
  function InsertKey(d: Dialect, r: Resource, body: Body, clock: Clock): Option<nat> {
    match InsertValues(d, r, body, clock, Persisted(r))
    case Err(_) => None
    case Ok(values) =>
      var key := Col(RowOf(Persisted(r), values), PrimaryKey(r));
      if key.Uuid? then Some(key.id) else None
  }

  predicate Creates(d: Dialect, r: Resource, call: Call, id: nat) {
    call.Do? && call.op.Insert? && InsertKey(d, r, call.op.body, call.op.clock) == Some(id)
  }

  predicate Removes(call: Call, id: nat) {
    call.Do? && call.op.HardDelete? && call.op.id == id
  }

  predicate Addresses(call: Call, id: nat) {
    call.Do? && (call.op.Find? || call.op.Update? || call.op.SoftDelete?) && call.op.id == id
  }

  predicate Shows(reply: Reply, id: nat) {
    match reply
    case OnePage(shown) => id in shown.ids
    case OneWindow(rows, _) => id in rows
    case _ => false
  }

  /** Nothing is to be seen of the row: it is in no list, and asking for it is refused. */
  predicate Hidden(r: Resource, call: Call, reply: Reply, id: nat) {
    !Shows(reply, id) && (r.softDelete && Addresses(call, id) ==> reply.Did? && reply.outcome.Err?)
  }

  lemma ListShowsLive(d: Dialect, r: Resource, ep: EndpointSpec, req: Request, page: PageRequest, live: Table, id: nat)
    requires FieldsKnown(r, ep) && Keyed(PrimaryKey(r), live) && id !in live
    ensures !Shows(SpecList(d, r, ep, req, page, live), id)
  {
    var parsed := ParseFilters(d, r.schema, req.filters, ep.filters);
    if parsed.Ok? {
      var after := if page.Cursor? then page.after else None;
      ListingIsLive(d, r, ep, parsed.value, req, after, live, id);
    }
  }

  lemma ListingIsLive(d: Dialect, r: Resource, ep: EndpointSpec, parsed: seq<Value>, req: Request, after: Option<nat>,
                      live: Table, id: nat)
    requires FieldsKnown(r, ep) && Keyed(PrimaryKey(r), live) && |parsed| == |ep.filters| && id !in live
    ensures id !in Listing(d, r, ep, parsed, req, after, live)
  {
    ListingFacts(d, r, ep, parsed, req, after, live);
    assert id !in Elements(Listing(d, r, ep, parsed, req, after, live));
  }

  /** What keeps a row that is not live away: its tombstone, or that nothing draws its id. */
  predicate StaysAway(d: Dialect, r: Resource, call: Call, s: State, id: nat) {
    if r.softDelete && id in s.dead then !Removes(call, id) else !Creates(d, r, call, id)
  }

  lemma OpKeepsGone(d: Dialect, r: Resource, op: Op, s: State, id: nat)
    requires id !in s.live && StaysAway(d, r, Do(op), s, id)
    ensures id !in Spec(d, r, op, s).0.live
    ensures r.softDelete ==> (id in s.dead <==> id in Spec(d, r, op, s).0.dead)
    ensures r.softDelete && Addresses(Do(op), id) ==> Spec(d, r, op, s).1.Err?
  {
  }

  lemma ServeKeepsGone(d: Dialect, r: Resource, call: Call, s: State, id: nat)
    requires ValidResource(r) && Servable(r, call) && ValidTable(r, s.live)
    requires id !in s.live && StaysAway(d, r, call, s, id)
    ensures var served := SpecServe(d, r, call, s);
            && id !in served.0.live && Hidden(r, call, served.1, id)
            && (r.softDelete ==> (id in s.dead <==> id in served.0.dead))
  {
    match call
    case Do(op) => OpKeepsGone(d, r, op, s, id);
    case List(ep, req, page) => ListShowsLive(d, r, ep, req, page, s.live, id);
  }

  ghost predicate AllHidden(r: Resource, calls: seq<Call>, replies: seq<Reply>, id: nat) {
    |replies| == |calls| && forall i :: 0 <= i < |calls| ==> Hidden(r, calls[i], replies[i], id)
  }

  lemma HiddenOnceMore(r: Resource, calls: seq<Call>, replies: seq<Reply>, id: nat)
    requires |replies| == |calls| > 0
    requires var n := |calls| - 1; AllHidden(r, calls[..n], replies[..n], id) && Hidden(r, calls[n], replies[n], id)
    ensures AllHidden(r, calls, replies, id)
  {
    var n := |calls| - 1;
    forall i | 0 <= i < |calls|
      ensures Hidden(r, calls[i], replies[i], id)
    {
      assert i < n ==> Hidden(r, calls[..n][i], replies[..n][i], id);
    }
  }

  /** Whether the row is kept away by its tombstone or by nothing drawing its id, over a run. */
  ghost predicate KeptAway(d: Dialect, r: Resource, calls: seq<Call>, s: State, id: nat) {
    id !in s.live &&
    if r.softDelete && id in s.dead then forall call :: call in calls ==> !Removes(call, id)
    else forall call :: call in calls ==> !Creates(d, r, call, id)
  }

  lemma {:induction false} SpecKeepsGone(d: Dialect, r: Resource, calls: seq<Call>, s: State, id: nat)
    requires ValidResource(r) && AllServable(r, calls) && ValidTable(r, s.live) && KeptAway(d, r, calls, s, id)
    ensures var ran := SpecAll(d, r, calls, s);
            && id !in ran.0.live && AllHidden(r, calls, ran.1, id)
            && (r.softDelete ==> (id in s.dead <==> id in ran.0.dead))
  {
    if calls != [] {
      var n := |calls| - 1;
      SpecKeepsGone(d, r, calls[..n], s, id);
      assert calls[n] in calls;
      ServeKeepsGone(d, r, calls[n], SpecAll(d, r, calls[..n], s).0, id);
      HiddenOnceMore(r, calls, SpecAll(d, r, calls, s).1, id);
    }
  }

  /** Main result: a row that is not live is found by no request of any continuation and is in
      none of its lists: a softly deleted one as long as no hard delete names it, and any other
      as long as no insert draws its id. */
  lemma {:induction false} GoneStaysGone(d: Dialect, r: Resource, calls: seq<Call>, t: Table, id: nat)
    requires ValidResource(r) && NoShadowing(r) && AllServable(r, calls) && ValidTable(r, t)
    requires KeptAway(d, r, calls, View(r, t), id)
    ensures var ran := RunAll(d, r, calls, t);
            && id !in View(r, ran.0).live && AllHidden(r, calls, ran.1, id)
            && (r.softDelete && id in View(r, t).dead ==> id in View(r, ran.0).dead)
  {
    RunRefines(d, r, calls, t);
    SpecKeepsGone(d, r, calls, View(r, t), id);
  }

  // ----- What the columns can hold ------------------------------------------

  /** The tables that paging is judged by are tables of the store. */
  lemma TypedTablesAreValid(r: Resource, t: Table)
    requires P.TypedTable(r, t)
    ensures ValidTable(r, t)
  {
    KeysKnown(r);
    assert StoredColumns(r.schema) == Elements(Persisted(r));
  }

  predicate ColumnsTake(r: Resource, columns: seq<string>, values: seq<Value>)
    requires |values| == |columns| && forall c :: c in columns ==> c in r.schema.at
  {
    forall i :: 0 <= i < |columns| ==> Storable(r.schema.at[columns[i]], values[i])
  }

  predicate PayloadTaken(r: Resource, values: map<string, Value>) {
    forall f :: f in values && f in r.schema.at ==> Storable(r.schema.at[f], values[f])
  }

  /** What `accepted` has to mean for tables to stay typed: the database takes a row only if
      its columns can hold the values. */
  predicate Honest(d: Dialect, r: Resource, op: Op, t: Table)
    requires NoShadowing(r)
  {
    Run(d, r, op, t).1.Ok? ==>
      match op
      case Insert(body, clock, _) => ColumnsTake(r, Persisted(r), InsertValues(d, r, body, clock, Persisted(r)).value)
      case Update(_, body, _, _) => PayloadTaken(r, ParseBody(d, r, body, MutableFields(r)).value)
      case SoftDelete(_, now, _) =>
        r.softDelete && "deleted_at" in r.schema.at ==> Storable(r.schema.at["deleted_at"], Timestamp(now))
      case _ => true
  }

  lemma PutTyped(r: Resource, id: nat, row: Row, t: Table)
    requires P.TypedTable(r, t) && Col(row, PrimaryKey(r)) == Uuid(id)
    ensures P.TypedTable(r, t[id := row]) <==> TypedRow(r.schema, row)
  {
    if P.TypedTable(r, t[id := row]) {
      assert t[id := row][id] == row;
    }
  }

  lemma {:induction false} NewRowTyped(r: Resource, values: seq<Value>)
    requires |values| == |Persisted(r)|
    ensures TypedRow(r.schema, RowOf(Persisted(r), values)) <==> ColumnsTake(r, Persisted(r), values)
  {
    var columns, row := Persisted(r), RowOf(Persisted(r), values);
    PersistedDistinct(r);
    RowOfHolds(columns, values);
    KeysKnown(r);
    assert row.Keys == Elements(columns) == StoredColumns(r.schema);
    forall c | c in row
      ensures exists i :: 0 <= i < |columns| && columns[i] == c
    {
      assert c in Elements(columns);
    }
  }

  lemma {:induction false} InsertEffect(d: Dialect, r: Resource, body: Body, clock: Clock, accepted: bool, t: Table)
    requires NoShadowing(r)
    ensures var values := InsertValues(d, r, body, clock, Persisted(r));
            RunInsert(d, r, body, clock, accepted, t)
            == if values.Ok? then RunStore(r, RowOf(Persisted(r), values.value), accepted, t)
              else (t, Err(values.error))
  {
    var values := InsertValues(d, r, body, clock, Persisted(r));
    if values.Ok? {
      InsertMeansValues(r, values.value);
    }
  }

  lemma InsertTyped(d: Dialect, r: Resource, body: Body, clock: Clock, accepted: bool, t: Table)
    requires NoShadowing(r) && P.TypedTable(r, t)
    ensures P.TypedTable(r, RunInsert(d, r, body, clock, accepted, t).0)
            <==> Honest(d, r, Insert(body, clock, accepted), t)
  {
    InsertEffect(d, r, body, clock, accepted, t);
    if RunInsert(d, r, body, clock, accepted, t).1.Ok? {
      var values := InsertValues(d, r, body, clock, Persisted(r)).value;
      NewRowTyped(r, values);
      StoredTyped(r, RowOf(Persisted(r), values), accepted, t);
    }
  }

  lemma StoredTyped(r: Resource, row: Row, accepted: bool, t: Table)
    requires P.TypedTable(r, t) && RunStore(r, row, accepted, t).1.Ok?
    ensures P.TypedTable(r, RunStore(r, row, accepted, t).0) <==> TypedRow(r.schema, row)
  {
    PutTyped(r, Col(row, PrimaryKey(r)).id, row, t);
  }

  /** The effect of an update that succeeds. */
  lemma {:induction false} UpdateEffect(d: Dialect, r: Resource, id: nat, body: Body, now: int, accepted: bool,
                                        t: Table)
    requires ValidResource(r) && NoShadowing(r) && ValidTable(r, t)
    requires RunUpdate(d, r, id, body, now, accepted, t).1.Ok?
    ensures ParseBody(d, r, body, MutableFields(r)).Ok? && id in t
    ensures var p := Payload(id, ParseBody(d, r, body, MutableFields(r)).value, now);
            RunUpdate(d, r, id, body, now, accepted, t).0 == t[id := UpdatedRow(r, p, t[id])]
  {
    var p := Payload(id, ParseBody(d, r, body, MutableFields(r)).value, now);
    UncapturedArguments(Names(UpdateFor(r).decls), Reads(UpdateFor(r).decls), Meanings(UpdateFor(r).decls, p));
    SetsSucceed(r, p, accepted, t);
  }

  lemma SetsSucceed(r: Resource, p: Payload, accepted: bool, t: Table)
    requires ValidResource(r) && NoShadowing(r) && ValidTable(r, t)
    requires RunSets(r, UpdateFor(r), Meanings(UpdateFor(r).decls, p), accepted, t).1.Ok?
    ensures p.id in t
    ensures RunSets(r, UpdateFor(r), Meanings(UpdateFor(r).decls, p), accepted, t).0
            == t[p.id := UpdatedRow(r, p, t[p.id])]
  {
    UpdateHitsTarget(r, p);
    SetsHit(r, p, t);
  }

  lemma UpdatedColumnTyped(r: Resource, p: Payload, row: Row, c: string)
    requires ValidResource(r) && TypedRow(r.schema, row) && c in row
    requires forall f :: f in p.values ==> f in MutableFields(r)
    ensures Storable(r.schema.at[c], UpdatedColumn(r, p, row, c))
            <==> (c in p.values ==> Storable(r.schema.at[c], p.values[c]))
  {
    assert Storable(r.schema.at[c], row[c]);
  }

  lemma UpdatedTyped(r: Resource, p: Payload, row: Row)
    requires ValidResource(r) && TypedRow(r.schema, row)
    requires forall f :: f in p.values ==> f in MutableFields(r)
    ensures TypedRow(r.schema, UpdatedRow(r, p, row)) <==> PayloadTaken(r, p.values)
  {
    forall c | c in row
      ensures Storable(r.schema.at[c], UpdatedRow(r, p, row)[c])
              <==> (c in p.values ==> Storable(r.schema.at[c], p.values[c]))
    {
      UpdatedColumnTyped(r, p, row, c);
    }
    forall f | f in p.values
      ensures f in row
    {
      MutableIsPersisted(r, f);
      KeysKnown(r);
      assert f in StoredColumns(r.schema);
    }
  }

  lemma UpdatedTableTyped(r: Resource, p: Payload, t: Table)
    requires ValidResource(r) && P.TypedTable(r, t) && p.id in t
    requires forall f :: f in p.values ==> f in MutableFields(r)
    ensures P.TypedTable(r, t[p.id := UpdatedRow(r, p, t[p.id])]) <==> PayloadTaken(r, p.values)
  {
    TypedTablesAreValid(r, t);
    UpdatedTyped(r, p, t[p.id]);
    UpdatedFits(r, p, t[p.id]);
    PutTyped(r, p.id, UpdatedRow(r, p, t[p.id]), t);
  }

  lemma RefusedUpdateTyped(d: Dialect, r: Resource, id: nat, body: Body, now: int, accepted: bool, t: Table)
    requires NoShadowing(r) && RunUpdate(d, r, id, body, now, accepted, t).1.Err?
    ensures RunUpdate(d, r, id, body, now, accepted, t).0 == t
  {
  }

  lemma UpdateTyped(d: Dialect, r: Resource, id: nat, body: Body, now: int, accepted: bool, t: Table)
    requires ValidResource(r) && NoShadowing(r) && P.TypedTable(r, t)
    ensures P.TypedTable(r, RunUpdate(d, r, id, body, now, accepted, t).0)
            <==> Honest(d, r, Update(id, body, now, accepted), t)
  {
    TypedTablesAreValid(r, t);
    if RunUpdate(d, r, id, body, now, accepted, t).1.Ok? {
      UpdateEffect(d, r, id, body, now, accepted, t);
      ParseBodyKeys(d, r, body, MutableFields(r));
      UpdatedTableTyped(r, Payload(id, ParseBody(d, r, body, MutableFields(r)).value, now), t);
    } else {
      RefusedUpdateTyped(d, r, id, body, now, accepted, t);
    }
  }

  lemma {:induction false} ParsedNull(d: Dialect, r: Resource, body: Body, fields: seq<string>, f: string)
    requires (forall g :: g in fields ==> g in r.schema.at) && ParseBody(d, r, body, fields).Ok?
    requires f in fields && f in body && body[f] == JsonNull
    ensures f in ParseBody(d, r, body, fields).value && ParseBody(d, r, body, fields).value[f] == Null
  {
    var n := |fields| - 1;
    if f in fields[..n] {
      ParsedNull(d, r, body, fields[..n], f);
    } else {
      assert f == fields[n];
    }
  }

  /** An update statement writes a JSON null wherever it is sent: where the column is required,
      the table it leaves is not typed. */
  lemma NullUpdateUntypes(d: Dialect, r: Resource, id: nat, body: Body, now: int, accepted: bool, t: Table, f: string)
    requires ValidResource(r) && NoShadowing(r) && P.TypedTable(r, t)
    requires RunUpdate(d, r, id, body, now, accepted, t).1.Ok?
    requires f in MutableFields(r) && f in body && body[f] == JsonNull && !r.schema.at[f].IsOptional()
    ensures !P.TypedTable(r, RunUpdate(d, r, id, body, now, accepted, t).0)
  {
    TypedTablesAreValid(r, t);
    UpdateEffect(d, r, id, body, now, accepted, t);
    ParsedNull(d, r, body, MutableFields(r), f);
    ParseBodyKeys(d, r, body, MutableFields(r));
    NullPayloadUntypes(r, Payload(id, ParseBody(d, r, body, MutableFields(r)).value, now), t, f);
  }

  lemma NullPayloadUntypes(r: Resource, p: Payload, t: Table, f: string)
    requires ValidResource(r) && P.TypedTable(r, t) && p.id in t
    requires forall g :: g in p.values ==> g in MutableFields(r)
    requires f in p.values && p.values[f] == Null && f in r.schema.at && !r.schema.at[f].IsOptional()
    ensures !P.TypedTable(r, t[p.id := UpdatedRow(r, p, t[p.id])])
  {
    UpdatedTableTyped(r, p, t);
  }

  lemma MarkedTyped(r: Resource, row: Row, now: int)
    requires ValidResource(r) && r.softDelete && TypedRow(r.schema, row)
    ensures "deleted_at" in r.schema.at
    ensures TypedRow(r.schema, Marked(row, now)) <==> Storable(r.schema.at["deleted_at"], Timestamp(now))
  {
    KeysKnown(r);
    assert "deleted_at" in StoredColumns(r.schema);
    assert Marked(row, now)["deleted_at"] == Timestamp(now);
  }

  lemma SoftDeleteTyped(d: Dialect, r: Resource, id: nat, now: int, accepted: bool, t: Table)
    requires ValidResource(r) && NoShadowing(r) && P.TypedTable(r, t)
    ensures P.TypedTable(r, RunSoftDelete(r, id, now, accepted, t).0)
            <==> Honest(d, r, SoftDelete(id, now, accepted), t)
  {
    TypedTablesAreValid(r, t);
    if r.softDelete && RunSoftDelete(r, id, now, accepted, t).1.Ok? {
      MarkedTableTyped(r, id, now, t);
    }
  }

  lemma MarkedTableTyped(r: Resource, id: nat, now: int, t: Table)
    requires ValidResource(r) && r.softDelete && P.TypedTable(r, t) && ValidTable(r, t) && id in t
    ensures "deleted_at" in r.schema.at
    ensures P.TypedTable(r, t[id := Marked(t[id], now)]) <==> Storable(r.schema.at["deleted_at"], Timestamp(now))
  {
    MarkedTyped(r, t[id], now);
    MarkedFits(r, t[id], now);
    PutTyped(r, id, Marked(t[id], now), t);
  }

  /** One operation keeps the table typed exactly when the database's verdict is honest. */
  lemma StepTypedExactly(d: Dialect, r: Resource, op: Op, t: Table)
    requires ValidResource(r) && NoShadowing(r) && P.TypedTable(r, t)
    ensures P.TypedTable(r, Run(d, r, op, t).0) <==> Honest(d, r, op, t)
  {
    match op
    case Find(id) =>
    case Insert(body, clock, ok) => InsertTyped(d, r, body, clock, ok, t);
    case Update(id, body, now, ok) => UpdateTyped(d, r, id, body, now, ok, t);
    case SoftDelete(id, now, ok) => SoftDeleteTyped(d, r, id, now, ok, t);
    case HardDelete(id, ok) =>
  }

  ghost predicate HonestCall(d: Dialect, r: Resource, call: Call, t: Table)
    requires NoShadowing(r)
  {
    call.Do? ==> Honest(d, r, call.op, t)
  }

  function TableAfter(d: Dialect, r: Resource, calls: seq<Call>, t: Table, k: nat): Table
    requires ValidResource(r) && NoShadowing(r) && AllServable(r, calls) && ValidTable(r, t) && k <= |calls|
  {
    RunAll(d, r, calls[..k], t).0
  }

  ghost predicate AlwaysTyped(d: Dialect, r: Resource, calls: seq<Call>, t: Table)
    requires ValidResource(r) && NoShadowing(r) && AllServable(r, calls) && ValidTable(r, t)
  {
    forall k :: 0 <= k <= |calls| ==> P.TypedTable(r, TableAfter(d, r, calls, t, k))
  }

  ghost predicate EachHonest(d: Dialect, r: Resource, calls: seq<Call>, t: Table)
    requires ValidResource(r) && NoShadowing(r) && AllServable(r, calls) && ValidTable(r, t)
  {
    forall k :: 0 <= k < |calls| ==> HonestCall(d, r, calls[k], TableAfter(d, r, calls, t, k))
  }

  lemma TypedAt(d: Dialect, r: Resource, calls: seq<Call>, t: Table, k: nat)
    requires ValidResource(r) && NoShadowing(r) && AllServable(r, calls) && ValidTable(r, t) && k < |calls|
    requires P.TypedTable(r, TableAfter(d, r, calls, t, k))
    ensures P.TypedTable(r, TableAfter(d, r, calls, t, k + 1))
            <==> HonestCall(d, r, calls[k], TableAfter(d, r, calls, t, k))
  {
    assert calls[..k + 1][..k] == calls[..k] && calls[..k + 1][k] == calls[k];
    if calls[k].Do? {
      StepTypedExactly(d, r, calls[k].op, TableAfter(d, r, calls, t, k));
    }
  }

  lemma {:induction false} TypedUpTo(d: Dialect, r: Resource, calls: seq<Call>, t: Table, k: nat)
    requires ValidResource(r) && NoShadowing(r) && AllServable(r, calls) && P.TypedTable(r, t) && ValidTable(r, t)
    requires EachHonest(d, r, calls, t) && k <= |calls|
    ensures P.TypedTable(r, TableAfter(d, r, calls, t, k))
  {
    if k > 0 {
      TypedUpTo(d, r, calls, t, k - 1);
      assert HonestCall(d, r, calls[k - 1], TableAfter(d, r, calls, t, k - 1));
      TypedAt(d, r, calls, t, k - 1);
    } else {
      assert calls[..0] == [];
    }
  }

  /** Main result: from a typed table, every table of a run is typed exactly when the database
      accepts only rows that its columns can hold. */
  lemma RunTypedExactly(d: Dialect, r: Resource, calls: seq<Call>, t: Table)
    requires ValidResource(r) && NoShadowing(r) && AllServable(r, calls) && P.TypedTable(r, t) && ValidTable(r, t)
    ensures AlwaysTyped(d, r, calls, t) <==> EachHonest(d, r, calls, t)
  {
    if EachHonest(d, r, calls, t) {
      forall k: nat | k <= |calls|
        ensures P.TypedTable(r, TableAfter(d, r, calls, t, k))
      {
        TypedUpTo(d, r, calls, t, k);
      }
    }
    if AlwaysTyped(d, r, calls, t) {
      forall k: nat | k < |calls|
        ensures HonestCall(d, r, calls[k], TableAfter(d, r, calls, t, k))
      {
        assert P.TypedTable(r, TableAfter(d, r, calls, t, k)) && P.TypedTable(r, TableAfter(d, r, calls, t, k + 1));
        TypedAt(d, r, calls, t, k);
      }
    }
  }
}
