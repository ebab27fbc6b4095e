/** The list-query compiler: from a list endpoint's declaration to parameterised SELECT
    statements, and what those statements return when run against a table. */
module ListQuery {
  import opened Prelude
  import opened Values
  import opened Schema
  import opened OrderBy
  import opened Arrangement

  // ----- Emitted code ------------------------------------------------------

  datatype Cond =
    | Always
    | ColumnIsNull(column: string)
    | ParamIsNull(n: nat)
    | ColumnEquals(column: string, n: nat)
    | ColumnAbove(column: string, n: nat)
    | TextSearch(columns: seq<string>, n: nat)
    | Either(left: Cond, right: Cond)
    | Both(left: Cond, right: Cond)

  /** LIMIT and OFFSET name the placeholders that carry them; 0 stands for no clause. */
  datatype SelectStatement = SelectStatement(where: Cond, orderBy: seq<OrderClause>, limit: nat, offset: nat)

  /** The expressions bound to placeholders, in placeholder order. */
  datatype ArgExpr =
    | LocalVar(name: string)
    | SearchTerm
    | CursorValue
    | SortFieldAt(slot: nat)
    | SortDirectionAt(slot: nat)
    | LimitPlusOne
    | LimitValue
    | OffsetValue

  datatype ListHelper = ListHelper(
    filters: seq<string>,
    cursorQuery: SelectStatement, cursorArgs: seq<ArgExpr>,
    countWhere: Cond, countArgs: seq<ArgExpr>,
    rowQuery: SelectStatement, rowArgs: seq<ArgExpr>)

  // ----- The compiler ------------------------------------------------------

  function FilterVar(field: string): string {
    "filter_" + SanitizeIdentifier(field)
  }

  /** `$n IS NULL OR column = $n`: a filter that was not supplied does not restrict. */
  function FilterPredicate(field: string, n: nat): Cond {
    Either(ParamIsNull(n), ColumnEquals(field, n))
  }

  function FilterWhere(base: Cond, filters: seq<string>): Cond {
    if filters == [] then base
    else Both(FilterWhere(base, filters[..|filters| - 1]), FilterPredicate(filters[|filters| - 1], |filters|))
  }

  function SearchCount(ep: EndpointSpec): nat {
    if ep.search == [] then 0 else 1
  }

  function CountWhere(softDelete: bool, ep: EndpointSpec): Cond {
    var base := if softDelete then Both(Always, ColumnIsNull("deleted_at")) else Always;
    var filtered := FilterWhere(base, ep.filters);
    var n := |ep.filters| + 1;
    if ep.search == [] then filtered
    else Both(filtered, Either(ParamIsNull(n), TextSearch(ep.search, n)))
  }

  function CursorPosition(ep: EndpointSpec): nat {
    |ep.filters| + SearchCount(ep) + 1
  }

  function CursorWhere(pk: string, softDelete: bool, ep: EndpointSpec): Cond {
    var n := CursorPosition(ep);
    Both(CountWhere(softDelete, ep), Either(ParamIsNull(n), ColumnAbove(pk, n)))
  }

  /** Two consecutive placeholders per sort slot, starting at `first`. */
  function SortPositions(first: nat, slots: nat): (s: seq<(nat, nat)>)
    ensures |s| == slots
  {
    seq(slots, i => (first + 2 * i, first + 2 * i + 1))
  }

  function FilterArgs(filters: seq<string>): seq<ArgExpr> {
    seq(|filters|, i requires 0 <= i < |filters| => LocalVar(FilterVar(filters[i])))
  }

  function SearchArgs(ep: EndpointSpec): seq<ArgExpr> {
    if ep.search == [] then [] else [SearchTerm]
  }

  function SortArgs(slots: nat): (s: seq<ArgExpr>)
    ensures |s| == 2 * slots
  {
    if slots == 0 then [] else SortArgs(slots - 1) + [SortFieldAt(slots - 1), SortDirectionAt(slots - 1)]
  }

  predicate FieldsKnown(r: Resource, ep: EndpointSpec) {
    (forall f :: f in ep.filters ==> f in r.schema.at) && (forall f :: f in ep.sort ==> f in r.schema.at)
  }

  function CountArgs(ep: EndpointSpec): (s: seq<ArgExpr>)
    ensures |s| == |ep.filters| + SearchCount(ep)
  {
    FilterArgs(ep.filters) + SearchArgs(ep)
  }

  function CursorTail(slots: nat): (s: seq<ArgExpr>)
    ensures |s| == 2 * slots + 2
  {
    [CursorValue] + SortArgs(slots) + [LimitPlusOne]
  }

  function RowTail(slots: nat): (s: seq<ArgExpr>)
    ensures |s| == 2 * slots + 2
  {
    SortArgs(slots) + [LimitValue, OffsetValue]
  }

  function CursorOrder(r: Resource, ep: EndpointSpec): seq<OrderClause>
    requires FieldsKnown(r, ep)
  {
    Matrix(r.schema, SortPositions(CursorPosition(ep) + 1, |ep.sort|), ep.sort) + [ByColumn(PrimaryKey(r))]
  }

  function RowsOrder(r: Resource, ep: EndpointSpec): seq<OrderClause>
    requires FieldsKnown(r, ep)
  {
    Matrix(r.schema, SortPositions(CursorPosition(ep), |ep.sort|), ep.sort) + [ByColumn(PrimaryKey(r))]
  }

  function CursorArgs(ep: EndpointSpec): seq<ArgExpr> {
    CountArgs(ep) + CursorTail(|ep.sort|)
  }

  function RowArgs(ep: EndpointSpec): seq<ArgExpr> {
    CountArgs(ep) + RowTail(|ep.sort|)
  }

  function CursorQuery(r: Resource, ep: EndpointSpec): SelectStatement
    requires FieldsKnown(r, ep)
  {
    SelectStatement(CursorWhere(PrimaryKey(r), r.softDelete, ep), CursorOrder(r, ep), |CursorArgs(ep)|, 0)
  }

  function RowQuery(r: Resource, ep: EndpointSpec): SelectStatement
    requires FieldsKnown(r, ep)
  {
    SelectStatement(CountWhere(r.softDelete, ep), RowsOrder(r, ep), |RowArgs(ep)| - 1, |RowArgs(ep)|)
  }

  /** The code emitted for an endpoint whose filter and sort fields exist. */
  function HelperFor(r: Resource, ep: EndpointSpec): ListHelper
    requires FieldsKnown(r, ep)
  {
    ListHelper(
      ep.filters,
      CursorQuery(r, ep), CursorArgs(ep),
      CountWhere(r.softDelete, ep), CountArgs(ep),
      RowQuery(r, ep), RowArgs(ep))
  }

  method PushSortArgs(args: seq<ArgExpr>, slots: nat) returns (out: seq<ArgExpr>)
    ensures out == args + SortArgs(slots)
  {
    out := args;
    for index := 0 to slots
      invariant out == args + SortArgs(index)
    {
      out := out + [SortFieldAt(index)];
      out := out + [SortDirectionAt(index)];
    }
  }

  method BuildCountArgs(ep: EndpointSpec) returns (args: seq<ArgExpr>)
    ensures args == CountArgs(ep)
  {
    args := FilterArgs(ep.filters);
    if ep.search != [] {
      args := args + [SearchTerm];
    }
  }

  method BuildCursorArgs(ep: EndpointSpec) returns (args: seq<ArgExpr>)
    ensures args == CursorArgs(ep)
  {
    args := BuildCountArgs(ep);
    args := args + [CursorValue];
    args := PushSortArgs(args, |ep.sort|);
    args := args + [LimitPlusOne];
  }

  method BuildRowArgs(ep: EndpointSpec) returns (args: seq<ArgExpr>)
    ensures args == RowArgs(ep)
  {
    args := BuildCountArgs(ep);
    args := PushSortArgs(args, |ep.sort|);
    args := args + [LimitValue];
    args := args + [OffsetValue];
  }

  method CheckFilters(r: Resource, filters: seq<string>) returns (unknown: Option<string>)
    ensures unknown == FirstMissing(filters, r.schema.at)
    ensures unknown == None <==> forall f :: f in filters ==> f in r.schema.at
  {
    for i := 0 to |filters|
      invariant forall f :: f in filters[..i] ==> f in r.schema.at
    {
      if filters[i] !in r.schema.at {
        MissingAt(filters, r.schema.at, i);
        return Some(filters[i]);
      }
      assert filters[..i + 1] == filters[..i] + [filters[i]];
    }
    assert filters[..|filters|] == filters;
    NoneMissing(filters, r.schema.at);
    return None;
  }

  /** The first filter field, or else sort field, that the schema does not have. */
  function UnknownField(r: Resource, ep: EndpointSpec): Option<string> {
    var filter := FirstMissing(ep.filters, r.schema.at);
    if filter.Some? then filter else FirstMissing(ep.sort, r.schema.at)
  }

  lemma KnownExactly(r: Resource, ep: EndpointSpec)
    ensures UnknownField(r, ep) == None <==> FieldsKnown(r, ep)
  {
    NoneMissing(ep.filters, r.schema.at);
    NoneMissing(ep.sort, r.schema.at);
  }

  /** The field that stops the compiler: the first unknown filter, or, where all filters are
      known, the first unknown sort field. */
  lemma UnknownIsFirst(r: Resource, ep: EndpointSpec)
    requires UnknownField(r, ep).Some?
    ensures var f := UnknownField(r, ep).value;
            || IsFirstMissing(ep.filters, r.schema.at, f)
            || ((forall x :: x in ep.filters ==> x in r.schema.at) && IsFirstMissing(ep.sort, r.schema.at, f))
  {
    if FirstMissing(ep.filters, r.schema.at).Some? {
      FirstIsMissing(ep.filters, r.schema.at);
    } else {
      NoneMissing(ep.filters, r.schema.at);
      FirstIsMissing(ep.sort, r.schema.at);
    }
  }

  /** Emits the helper, or names the first field the schema does not have. */
  method GenerateListHelper(r: Resource, ep: EndpointSpec) returns (result: Result<ListHelper, string>)
    ensures result.Ok? <==> FieldsKnown(r, ep)
    ensures result.Ok? ==> result.value == HelperFor(r, ep)
    ensures result.Err? ==> UnknownField(r, ep) == Some(result.error)
  {
    var unknown := CheckFilters(r, ep.filters);
    if unknown.Some? {
      return Err(unknown.value);
    }
    var pk := PrimaryKey(r);
    var cursorPosition := |ep.filters| + SearchCount(ep) + 1;
    var cursorOrder := GenerateOrderBy(r.schema, pk, ep.sort, SortPositions(cursorPosition + 1, |ep.sort|));
    if cursorOrder.Err? {
      return Err(cursorOrder.error);
    }
    // The same fields were just found, so this second call cannot fail.
    var rowOrder := GenerateOrderBy(r.schema, pk, ep.sort, SortPositions(cursorPosition, |ep.sort|));
    var cursorArgs := BuildCursorArgs(ep);
    var countArgs := BuildCountArgs(ep);
    var rowArgs := BuildRowArgs(ep);
    result := Ok(ListHelper(
      ep.filters,
      SelectStatement(CursorWhere(pk, r.softDelete, ep), cursorOrder.value, |cursorArgs|, 0), cursorArgs,
      CountWhere(r.softDelete, ep), countArgs,
      SelectStatement(CountWhere(r.softDelete, ep), rowOrder.value, |rowArgs| - 1, |rowArgs|), rowArgs));
  }

  // ----- Three-valued evaluation -------------------------------------------

  datatype Truth = True | False | Unknown

  function Or3(a: Truth, b: Truth): Truth {
    if a == True || b == True then True
    else if a == Unknown || b == Unknown then Unknown
    else False
  }

  function And3(a: Truth, b: Truth): Truth {
    if a == False || b == False then False
    else if a == Unknown || b == Unknown then Unknown
    else True
  }

  function Known(b: bool): Truth {
    if b then True else False
  }

  function Columns(row: Row, columns: seq<string>): seq<Value> {
    seq(|columns|, i requires 0 <= i < |columns| => Col(row, columns[i]))
  }

  function Eval(d: Dialect, c: Cond, args: seq<Value>, row: Row): Truth {
    match c
    case Always => True
    case ColumnIsNull(col) => Known(Col(row, col) == Null)
    case ParamIsNull(n) => Known(Param(args, n) == Null)
    case ColumnEquals(col, n) =>
      if Col(row, col) == Null || Param(args, n) == Null then Unknown
      else Known(Col(row, col) == Param(args, n))
    case ColumnAbove(col, n) =>
      if Col(row, col) == Null || Param(args, n) == Null then Unknown
      else Known(d.before(Param(args, n), Col(row, col)))
    case TextSearch(cols, n) =>
      if Param(args, n).Text? then Known(d.matches(Columns(row, cols), Param(args, n).text)) else Unknown
    case Either(a, b) => Or3(Eval(d, a, args, row), Eval(d, b, args, row))
    case Both(a, b) => And3(Eval(d, a, args, row), Eval(d, b, args, row))
  }

  // ----- Requests ----------------------------------------------------------

  datatype FilterParam = FilterParam(field: string, value: string)

  datatype Request = Request(filters: seq<FilterParam>, search: Option<string>, sort: seq<SortField>)

  /** First supplied text for a field. */
  function FilterText(supplied: seq<FilterParam>, field: string): Option<string> {
    if supplied == [] then None
    else if supplied[0].field == field then Some(supplied[0].value)
    else FilterText(supplied[1..], field)
  }

  /** The typed value of one filter; NULL when the request does not supply it. */
  function ParseFilter(d: Dialect, schema: IndexMap<FieldSchema>, supplied: seq<FilterParam>,
                       field: string): Option<Value>
    requires field in schema.at
  {
    match FilterText(supplied, field)
    case None => Some(Null)
    case Some(text) =>
      match d.parseText(schema.at[field].fieldType, text)
      case None => None
      case Some(v) => Some(v)
  }

  /** Runs the filter declarations in order: the typed values, or the first field whose text is invalid. */
  function ParseFilters(d: Dialect, schema: IndexMap<FieldSchema>, supplied: seq<FilterParam>,
                        filters: seq<string>): (r: Result<seq<Value>, string>)
    requires forall f :: f in filters ==> f in schema.at
    ensures r.Ok? ==> |r.value| == |filters|
  {
    if filters == [] then Ok([])
    else
      var n := |filters| - 1;
      match ParseFilters(d, schema, supplied, filters[..n])
      case Err(e) => Err(e)
      case Ok(front) =>
        match ParseFilter(d, schema, supplied, filters[n])
        case None => Err(filters[n])
        case Some(v) => Ok(front + [v])
  }

  /** Local variables after the declarations ran; a repeated name shadows. */
  function Locals(filters: seq<string>, parsed: seq<Value>): map<string, Value>
    requires |parsed| == |filters|
  {
    if filters == [] then map[]
    else
      var n := |filters| - 1;
      Locals(filters[..n], parsed[..n])[FilterVar(filters[n]) := parsed[n]]
  }

  function LocalValue(locals: map<string, Value>, name: string): Value {
    if name in locals then locals[name] else Null
  }

  datatype PageRequest = Cursor(after: Option<nat>, limit: nat) | Offset(offset: nat, limit: nat)

  function EvalArg(e: ArgExpr, locals: map<string, Value>, req: Request, page: PageRequest): Value {
    match e
    case LocalVar(name) => LocalValue(locals, name)
    case SearchTerm => if req.search.Some? then Text(req.search.value) else Null
    case CursorValue => if page.Cursor? && page.after.Some? then Uuid(page.after.value) else Null
    case SortFieldAt(i) => SlotField(req.sort, i)
    case SortDirectionAt(i) => SlotDirection(req.sort, i)
    case LimitPlusOne => Integer(page.limit + 1)
    case LimitValue => Integer(page.limit)
    case OffsetValue => if page.Offset? then Integer(page.offset) else Null
  }

  function EvalArgs(es: seq<ArgExpr>, locals: map<string, Value>, req: Request, page: PageRequest): (args: seq<Value>)
    ensures |args| == |es|
  {
    seq(|es|, i requires 0 <= i < |es| => EvalArg(es[i], locals, req, page))
  }

  // ----- Running a statement -----------------------------------------------

  type Table = map<nat, Row>

  /** Rows are stored under their primary key. */
  ghost predicate Keyed(pk: string, t: Table) {
    forall id :: id in t ==> Col(t[id], pk) == Uuid(id)
  }

  function Matching(d: Dialect, where: Cond, args: seq<Value>, t: Table): set<nat> {
    set id | id in t && Eval(d, where, args, t[id]) == True
  }

  function RowOrder(d: Dialect, order: seq<OrderClause>, args: seq<Value>, t: Table): (nat, nat) -> bool {
    (x, y) => x in t && y in t && CompareBy(d, order, args, t[x], t[y]) == Lt
  }

  ghost predicate EndsWithKey(order: seq<OrderClause>, pk: string) {
    order != [] && order[|order| - 1] == ByColumn(pk)
  }

  lemma OrderIsTotal(d: Dialect, order: seq<OrderClause>, pk: string, args: seq<Value>, t: Table, ids: set<nat>)
    requires EndsWithKey(order, pk) && Keyed(pk, t) && ids <= t.Keys
    ensures StrictTotal(ids, RowOrder(d, order, args, t))
  {
    var front := order[..|order| - 1];
    assert order == front + [ByColumn(pk)];
    forall x, y, z | x in ids && y in ids && z in ids
      ensures RowOrder(d, order, args, t)(x, y) ==> !RowOrder(d, order, args, t)(y, x)
      ensures x != y ==> RowOrder(d, order, args, t)(x, y) || RowOrder(d, order, args, t)(y, x)
      ensures RowOrder(d, order, args, t)(x, y) && RowOrder(d, order, args, t)(y, z)
              ==> RowOrder(d, order, args, t)(x, z)
    {
      CompareByIsOrder(d, order, args, t[x], t[y], t[z]);
      CompareByDecides(d, front, pk, args, t[x], t[y]);
    }
  }

  function CountParam(args: seq<Value>, n: nat): nat {
    if Param(args, n).Integer? && Param(args, n).i >= 0 then Param(args, n).i else 0
  }

  /** The ids a SELECT returns, in order. */
  function Select(d: Dialect, q: SelectStatement, pk: string, args: seq<Value>, t: Table): seq<nat>
    requires EndsWithKey(q.orderBy, pk) && Keyed(pk, t)
  {
    var ids := Matching(d, q.where, args, t);
    OrderIsTotal(d, q.orderBy, pk, args, t, ids);
    Window(Arrange(ids, RowOrder(d, q.orderBy, args, t)), CountParam(args, q.offset), CountParam(args, q.limit))
  }

  // ----- Direct specification of a list request ----------------------------

  function FilterHolds(row: Row, field: string, v: Value): bool {
    v == Null || Col(row, field) == v
  }

  ghost predicate FiltersHold(row: Row, filters: seq<string>, parsed: seq<Value>)
    requires |parsed| == |filters|
  {
    forall i :: 0 <= i < |filters| ==> FilterHolds(row, filters[i], parsed[i])
  }

  predicate SearchHolds(d: Dialect, row: Row, ep: EndpointSpec, search: Option<string>) {
    ep.search != [] && search.Some? ==> d.matches(Columns(row, ep.search), search.value)
  }

  predicate Live(r: Resource, row: Row) {
    r.softDelete ==> Col(row, "deleted_at") == Null
  }

  /** A row the request is about. */
  ghost predicate Wanted(d: Dialect, r: Resource, ep: EndpointSpec, parsed: seq<Value>, req: Request, row: Row)
    requires |parsed| == |ep.filters|
  {
    Live(r, row) && FiltersHold(row, ep.filters, parsed) && SearchHolds(d, row, ep, req.search)
  }

  predicate AfterCursor(d: Dialect, pk: string, after: Option<nat>, row: Row) {
    after.Some? ==> Col(row, pk) != Null && d.before(Uuid(after.value), Col(row, pk))
  }

  /** No two different filter fields sanitise to one identifier. */
  ghost predicate NoCapture(filters: seq<string>) {
    forall i, j :: 0 <= i < |filters| && 0 <= j < |filters| && filters[i] != filters[j] ==>
      SanitizeIdentifier(filters[i]) != SanitizeIdentifier(filters[j])
  }

  lemma SharedFilterVar(f: string, g: string)
    ensures FilterVar(f) == FilterVar(g) <==> SanitizeIdentifier(f) == SanitizeIdentifier(g)
  {
    var k := |FilterVar(f)| - |SanitizeIdentifier(f)|;
    assert FilterVar(f)[k..] == SanitizeIdentifier(f) && FilterVar(g)[k..] == SanitizeIdentifier(g);
  }

  /** A field filtered twice has one value. */
  ghost predicate Consistent(filters: seq<string>, parsed: seq<Value>)
    requires |parsed| == |filters|
  {
    forall i, j :: 0 <= i < |filters| && 0 <= j < |filters| && filters[i] == filters[j] ==> parsed[i] == parsed[j]
  }

  // ----- Variables ---------------------------------------------------------

  lemma {:induction false} LocalsHoldLast(filters: seq<string>, parsed: seq<Value>, i: nat)
    requires |parsed| == |filters| && i < |filters|
    requires forall j :: i < j < |filters| && FilterVar(filters[j]) == FilterVar(filters[i]) ==> parsed[j] == parsed[i]
    ensures LocalValue(Locals(filters, parsed), FilterVar(filters[i])) == parsed[i]
  {
    var n := |filters| - 1;
    if i < n && FilterVar(filters[n]) != FilterVar(filters[i]) {
      var front, values := filters[..n], parsed[..n];
      assert front[i] == filters[i] && values[i] == parsed[i];
      forall j | i < j < n && FilterVar(front[j]) == FilterVar(front[i])
        ensures values[j] == values[i]
      {
        assert front[j] == filters[j] && values[j] == parsed[j];
      }
      LocalsHoldLast(front, values, i);
    }
  }

  lemma {:induction false} ParsedIsConsistent(d: Dialect, schema: IndexMap<FieldSchema>, supplied: seq<FilterParam>,
                                              filters: seq<string>, i: nat)
    requires forall f :: f in filters ==> f in schema.at
    requires ParseFilters(d, schema, supplied, filters).Ok? && i < |filters|
    ensures ParseFilter(d, schema, supplied, filters[i]) == Some(ParseFilters(d, schema, supplied, filters).value[i])
  {
    var n := |filters| - 1;
    if i < n {
      ParsedIsConsistent(d, schema, supplied, filters[..n], i);
    }
  }

  /** Every declared filter variable holds its own filter's value. */
  ghost predicate Faithful(filters: seq<string>, parsed: seq<Value>)
    requires |parsed| == |filters|
  {
    forall i :: 0 <= i < |filters| ==> LocalValue(Locals(filters, parsed), FilterVar(filters[i])) == parsed[i]
  }

  lemma NoCaptureIsFaithful(filters: seq<string>, parsed: seq<Value>)
    requires |parsed| == |filters| && NoCapture(filters) && Consistent(filters, parsed)
    ensures Faithful(filters, parsed)
  {
    forall i | 0 <= i < |filters|
      ensures LocalValue(Locals(filters, parsed), FilterVar(filters[i])) == parsed[i]
    {
      forall j | 0 <= j < |filters| {
        SharedFilterVar(filters[j], filters[i]);
      }
      LocalsHoldLast(filters, parsed, i);
    }
  }

  lemma {:induction false} ParsedConsistent(d: Dialect, schema: IndexMap<FieldSchema>, supplied: seq<FilterParam>,
                                            filters: seq<string>)
    requires (forall f :: f in filters ==> f in schema.at) && ParseFilters(d, schema, supplied, filters).Ok?
    ensures Consistent(filters, ParseFilters(d, schema, supplied, filters).value)
  {
    forall i | 0 <= i < |filters| {
      ParsedIsConsistent(d, schema, supplied, filters, i);
    }
  }

  /** Whatever a request supplies, what its filters parse to reaches their own variables. */
  ghost predicate FiltersArrive(d: Dialect, schema: IndexMap<FieldSchema>, supplied: seq<FilterParam>,
                                filters: seq<string>)
    requires forall f :: f in filters ==> f in schema.at
  {
    var parsed := ParseFilters(d, schema, supplied, filters);
    parsed.Ok? ==> Faithful(filters, parsed.value)
  }

  lemma {:induction false} SampleParses(d: Dialect, schema: IndexMap<FieldSchema>, supplied: seq<FilterParam>,
                                        filters: seq<string>)
    requires (forall f :: f in filters ==> f in schema.at)
             && forall ft, s :: d.parseText(ft, s) == Some(Sample(ft, s == "1"))
    ensures ParseFilters(d, schema, supplied, filters).Ok?
  {
    if filters != [] {
      SampleParses(d, schema, supplied, filters[..|filters| - 1]);
    }
  }

  /** Of two different fields that share a variable, supplying one misleads the other. */
  lemma CaptureIsUnfaithful(schema: IndexMap<FieldSchema>, filters: seq<string>, i: nat, j: nat)
    requires forall f :: f in filters ==> f in schema.at
    requires i < |filters| && j < |filters| && filters[i] != filters[j]
             && FilterVar(filters[i]) == FilterVar(filters[j])
    ensures exists d: Dialect, supplied :: !FiltersArrive(d, schema, supplied, filters)
  {
    var d: Dialect := SampleDialect();
    var supplied := [FilterParam(filters[i], "1")];
    assert FilterText(supplied, filters[i]) == Some("1");
    assert FilterText(supplied[1..], filters[j]) == None && FilterText(supplied, filters[j]) == None;
    SampleParses(d, schema, supplied, filters);
    ParsedIsConsistent(d, schema, supplied, filters, i);
    ParsedIsConsistent(d, schema, supplied, filters, j);
    var parsed := ParseFilters(d, schema, supplied, filters).value;
    assert parsed[i] != Null && parsed[j] == Null;
    assert !FiltersArrive(d, schema, supplied, filters);
  }

  /** Each filter's placeholder carries that filter's own value, whatever is supplied and however
      texts parse, exactly when no two filter fields sanitise to one variable name. */
  lemma FilterVariablesExact(schema: IndexMap<FieldSchema>, filters: seq<string>)
    requires forall f :: f in filters ==> f in schema.at
    ensures NoCapture(filters) <==> forall d: Dialect, supplied :: FiltersArrive(d, schema, supplied, filters)
  {
    if NoCapture(filters) {
      forall d: Dialect, supplied
        ensures FiltersArrive(d, schema, supplied, filters)
      {
        var parsed := ParseFilters(d, schema, supplied, filters);
        if parsed.Ok? {
          ParsedConsistent(d, schema, supplied, filters);
          NoCaptureIsFaithful(filters, parsed.value);
        }
      }
    } else {
      var i, j :| 0 <= i < |filters| && 0 <= j < |filters| && filters[i] != filters[j]
                  && SanitizeIdentifier(filters[i]) == SanitizeIdentifier(filters[j]);
      SharedFilterVar(filters[i], filters[j]);
      CaptureIsUnfaithful(schema, filters, i, j);
    }
  }

  // ----- What filters parse to ----------------------------------------------

  /** The text a request supplies for a field: the first one, if any. */
  lemma {:induction false} FilterTextIsFirst(supplied: seq<FilterParam>, field: string, text: string)
    ensures FilterText(supplied, field) == None <==> forall p :: p in supplied ==> p.field != field
    ensures FilterText(supplied, field) == Some(text) <==>
            exists i :: 0 <= i < |supplied| && supplied[i] == FilterParam(field, text)
                        && forall j :: 0 <= j < i ==> supplied[j].field != field
  {
    if supplied != [] {
      var rest := supplied[1..];
      FilterTextIsFirst(rest, field, text);
      assert supplied == [supplied[0]] + rest;
      if supplied[0].field != field {
        forall i | 0 <= i < |rest| && rest[i] == FilterParam(field, text)
                   && forall j :: 0 <= j < i ==> rest[j].field != field
          ensures supplied[i + 1] == FilterParam(field, text)
          ensures forall j :: 0 <= j < i + 1 ==> supplied[j].field != field
        {
          assert forall j :: 1 <= j < i + 1 ==> supplied[j] == rest[j - 1];
        }
        forall i | 0 <= i < |supplied| && supplied[i] == FilterParam(field, text)
                   && forall j :: 0 <= j < i ==> supplied[j].field != field
          ensures i > 0 && rest[i - 1] == FilterParam(field, text)
          ensures forall j :: 0 <= j < i - 1 ==> rest[j].field != field
        {
          assert forall j :: 0 <= j < i - 1 ==> rest[j] == supplied[j + 1];
        }
      }
    }
  }

  /** A text was supplied for the filter that is no value of its field's type. */
  predicate BadText(d: Dialect, schema: IndexMap<FieldSchema>, supplied: seq<FilterParam>, f: string)
    requires f in schema.at
  {
    FilterText(supplied, f).Some? && d.parseText(schema.at[f].fieldType, FilterText(supplied, f).value) == None
  }

  /** What a filter's value is: NULL when nothing was supplied, else the text at the field's type. */
  predicate ReadAs(d: Dialect, schema: IndexMap<FieldSchema>, supplied: seq<FilterParam>, f: string, v: Value)
    requires f in schema.at
  {
    match FilterText(supplied, f)
    case None => v == Null
    case Some(text) => d.parseText(schema.at[f].fieldType, text) == Some(v)
  }

  /** Filters parse exactly when no text is bad, to what was supplied for each; the first bad one
      is the error. */
  lemma {:induction false} FiltersParseExactly(d: Dialect, schema: IndexMap<FieldSchema>, supplied: seq<FilterParam>,
                                               filters: seq<string>)
    requires forall f :: f in filters ==> f in schema.at
    ensures var parsed := ParseFilters(d, schema, supplied, filters);
            && (parsed.Ok? <==> forall f :: f in filters ==> !BadText(d, schema, supplied, f))
            && (parsed.Ok? ==>
                 forall i :: 0 <= i < |filters| ==> ReadAs(d, schema, supplied, filters[i], parsed.value[i]))
            && (parsed.Err? ==> exists i :: 0 <= i < |filters| && filters[i] == parsed.error
                                            && BadText(d, schema, supplied, filters[i])
                                            && forall j :: 0 <= j < i ==> !BadText(d, schema, supplied, filters[j]))
  {
    if filters != [] {
      var n := |filters| - 1;
      FiltersParseExactly(d, schema, supplied, filters[..n]);
      assert ParseFilter(d, schema, supplied, filters[n]) == None <==> BadText(d, schema, supplied, filters[n]);
      assert filters == filters[..n] + [filters[n]];
      assert forall i :: 0 <= i < n ==> filters[..n][i] == filters[i];
      var before := ParseFilters(d, schema, supplied, filters[..n]);
      if before.Err? {
        var i :| 0 <= i < n && filters[..n][i] == before.error && BadText(d, schema, supplied, filters[..n][i])
                 && forall j :: 0 <= j < i ==> !BadText(d, schema, supplied, filters[..n][j]);
        assert filters[i] == before.error && filters[i] in filters;
      } else if BadText(d, schema, supplied, filters[n]) {
        assert filters[n] in filters;
        assert forall j :: 0 <= j < n ==> filters[..n][j] in filters[..n];
      }
    }
  }

  // ----- WHERE means the specification -------------------------------------

  /** Placeholders 1..n carry the filters, the next one the search term. */
  ghost predicate FiltersBound(args: seq<Value>, filters: seq<string>, parsed: seq<Value>)
    requires |parsed| == |filters|
  {
    forall i :: 0 <= i < |filters| ==> Param(args, i + 1) == parsed[i]
  }

  lemma FiltersHoldStep(row: Row, filters: seq<string>, parsed: seq<Value>)
    requires |parsed| == |filters| > 0
    ensures var n := |filters| - 1;
            FiltersHold(row, filters, parsed)
            <==> FiltersHold(row, filters[..n], parsed[..n]) && FilterHolds(row, filters[n], parsed[n])
  {
    var n := |filters| - 1;
    if FiltersHold(row, filters[..n], parsed[..n]) && FilterHolds(row, filters[n], parsed[n]) {
      forall i | 0 <= i <= n
        ensures FilterHolds(row, filters[i], parsed[i])
      {
        assert i < n ==> FilterHolds(row, filters[..n][i], parsed[..n][i]);
      }
    }
  }

  lemma {:induction false} FilterPredicateExact(d: Dialect, field: string, n: nat, v: Value, args: seq<Value>, row: Row)
    requires Param(args, n) == v
    ensures Eval(d, FilterPredicate(field, n), args, row) == True <==> FilterHolds(row, field, v)
  {
  }

  lemma {:induction false} FilterWhereExact(d: Dialect, base: Cond, filters: seq<string>, parsed: seq<Value>,
                                            args: seq<Value>, row: Row)
    requires |parsed| == |filters| && FiltersBound(args, filters, parsed)
    ensures Eval(d, FilterWhere(base, filters), args, row) == True
            <==> Eval(d, base, args, row) == True && FiltersHold(row, filters, parsed)
  {
    if filters != [] {
      var n := |filters| - 1;
      FilterWhereExact(d, base, filters[..n], parsed[..n], args, row);
      FiltersHoldStep(row, filters, parsed);
      FilterPredicateExact(d, filters[n], n + 1, parsed[n], args, row);
      assert FilterWhere(base, filters) == Both(FilterWhere(base, filters[..n]), FilterPredicate(filters[n], n + 1));
    }
  }

  /** The three-valued WHERE keeps exactly the rows the request is about. */
  lemma {:induction false} CountWhereExact(d: Dialect, r: Resource, ep: EndpointSpec, parsed: seq<Value>, req: Request,
                                           args: seq<Value>, row: Row)
    requires |parsed| == |ep.filters| && FiltersBound(args, ep.filters, parsed)
    requires SearchBound(args, ep, req)
    ensures Eval(d, CountWhere(r.softDelete, ep), args, row) == True <==> Wanted(d, r, ep, parsed, req, row)
  {
    var base := if r.softDelete then Both(Always, ColumnIsNull("deleted_at")) else Always;
    assert Eval(d, base, args, row) == True <==> Live(r, row);
    FilterWhereExact(d, base, ep.filters, parsed, args, row);
    var n := |ep.filters| + 1;
    if ep.search != [] {
      var term := Either(ParamIsNull(n), TextSearch(ep.search, n));
      assert Eval(d, term, args, row) == True <==> SearchHolds(d, row, ep, req.search);
      assert CountWhere(r.softDelete, ep) == Both(FilterWhere(base, ep.filters), term);
    }
  }

  /** The arguments of a statement whose list starts with the counted ones. */
  ghost predicate ArgsOf(args: seq<Value>, ep: EndpointSpec, tail: seq<ArgExpr>, locals: map<string, Value>,
                         req: Request, page: PageRequest) {
    args == EvalArgs(CountArgs(ep) + tail, locals, req, page)
  }

  ghost predicate SearchBound(args: seq<Value>, ep: EndpointSpec, req: Request) {
    ep.search != [] ==> Param(args, |ep.filters| + 1) == EvalArg(SearchTerm, map[], req, Offset(0, 0))
  }

  /** Placeholder numbering agrees with the argument list. */
  lemma {:induction false} FiltersAreBound(args: seq<Value>, ep: EndpointSpec, tail: seq<ArgExpr>, parsed: seq<Value>,
                                           req: Request, page: PageRequest)
    requires |parsed| == |ep.filters| && Consistent(ep.filters, parsed) && NoCapture(ep.filters)
    requires ArgsOf(args, ep, tail, Locals(ep.filters, parsed), req, page)
    ensures FiltersBound(args, ep.filters, parsed) && SearchBound(args, ep, req)
  {
    NoCaptureIsFaithful(ep.filters, parsed);
    var es := CountArgs(ep) + tail;
    forall i | 0 <= i < |ep.filters|
      ensures Param(args, i + 1) == parsed[i]
    {
      assert es[i] == FilterArgs(ep.filters)[i] == LocalVar(FilterVar(ep.filters[i]));
      assert args[i] == EvalArg(es[i], Locals(ep.filters, parsed), req, page);
    }
    if ep.search != [] {
      var i := |ep.filters|;
      assert es[i] == SearchTerm;
      assert args[i] == EvalArg(es[i], Locals(ep.filters, parsed), req, page);
    }
  }

  lemma TailIsBound(args: seq<Value>, ep: EndpointSpec, tail: seq<ArgExpr>, locals: map<string, Value>, req: Request,
                    page: PageRequest, k: nat)
    requires ArgsOf(args, ep, tail, locals, req, page) && k < |tail|
    ensures Param(args, CursorPosition(ep) + k) == EvalArg(tail[k], locals, req, page)
  {
    var es := CountArgs(ep) + tail;
    var i := |CountArgs(ep)| + k;
    assert es[i] == tail[k];
    assert args[i] == EvalArg(es[i], locals, req, page);
  }

  lemma {:induction false} SortArgAt(slots: nat, i: nat)
    requires i < slots
    ensures SortArgs(slots)[2 * i] == SortFieldAt(i) && SortArgs(slots)[2 * i + 1] == SortDirectionAt(i)
  {
    if i < slots - 1 {
      SortArgAt(slots - 1, i);
    }
  }

  /** The sort placeholders carry the request's sort slots wherever the block of them starts. */
  lemma {:induction false} SlotsAreBound(args: seq<Value>, first: nat, slots: nat, locals: map<string, Value>,
                                         req: Request, page: PageRequest)
    requires forall k :: 0 <= k < 2 * slots ==> Param(args, first + k) == EvalArg(SortArgs(slots)[k], locals, req, page)
    ensures SlotsBound(args, SortPositions(first, slots), req.sort)
  {
    var positions := SortPositions(first, slots);
    forall i | 0 <= i < slots
      ensures Param(args, positions[i].0) == SlotField(req.sort, i)
      ensures Param(args, positions[i].1) == SlotDirection(req.sort, i)
    {
      SortArgAt(slots, i);
      assert Param(args, first + 2 * i) == EvalArg(SortArgs(slots)[2 * i], locals, req, page);
      assert Param(args, first + (2 * i + 1)) == EvalArg(SortArgs(slots)[2 * i + 1], locals, req, page);
    }
  }

  /** The order a list request asks for, as a relation on stored rows. */
  function RequestedOrder(d: Dialect, r: Resource, ep: EndpointSpec, sort: seq<SortField>, t: Table): (nat, nat) -> bool
    requires FieldsKnown(r, ep)
  {
    (x, y) => x in t && y in t &&
      Then(RequestCompare(d, r.schema, ep.sort, Kept(sort, |ep.sort|), t[x], t[y]),
           PkCompare(d, PrimaryKey(r), t[x], t[y])) == Lt
  }

  /** The wanted rows after a cursor. */
  ghost function WantedAfter(d: Dialect, r: Resource, ep: EndpointSpec, parsed: seq<Value>, req: Request,
                             after: Option<nat>, t: Table): set<nat>
    requires |parsed| == |ep.filters|
  {
    set id | id in t && Wanted(d, r, ep, parsed, req, t[id]) && AfterCursor(d, PrimaryKey(r), after, t[id])
  }

  /** All rows the request is about, in the requested order. */
  ghost function Listing(d: Dialect, r: Resource, ep: EndpointSpec, parsed: seq<Value>, req: Request,
                         after: Option<nat>, t: Table): seq<nat>
    requires FieldsKnown(r, ep) && |parsed| == |ep.filters| && Keyed(PrimaryKey(r), t)
  {
    var ids := WantedAfter(d, r, ep, parsed, req, after, t);
    RequestedIsTotal(d, r, ep, req.sort, t, ids);
    Arrange(ids, RequestedOrder(d, r, ep, req.sort, t))
  }

  /** The listing holds each wanted row once, in the requested order. */
  lemma ListingFacts(d: Dialect, r: Resource, ep: EndpointSpec, parsed: seq<Value>, req: Request, after: Option<nat>,
                     t: Table)
    requires FieldsKnown(r, ep) && |parsed| == |ep.filters| && Keyed(PrimaryKey(r), t)
    ensures var l, ids := Listing(d, r, ep, parsed, req, after, t), WantedAfter(d, r, ep, parsed, req, after, t);
            Elements(l) == ids && |l| == |ids| && Increasing(l, RequestedOrder(d, r, ep, req.sort, t))
  {
    var ids := WantedAfter(d, r, ep, parsed, req, after, t);
    RequestedIsTotal(d, r, ep, req.sort, t, ids);
    ArrangeFacts(ids, RequestedOrder(d, r, ep, req.sort, t));
  }

  lemma RequestedIsTotal(d: Dialect, r: Resource, ep: EndpointSpec, sort: seq<SortField>, t: Table, ids: set<nat>)
    requires FieldsKnown(r, ep) && Keyed(PrimaryKey(r), t) && ids <= t.Keys
    ensures StrictTotal(ids, RequestedOrder(d, r, ep, sort, t))
  {
    var pk := PrimaryKey(r);
    var slots := |ep.sort|;
    var positions := SortPositions(1, slots);
    var args := EvalArgs(SortArgs(slots), map[], Request([], None, sort), Offset(0, 0));
    SlotsAreBound(args, 1, slots, map[], Request([], None, sort), Offset(0, 0));
    var order := Matrix(r.schema, positions, ep.sort) + [ByColumn(pk)];
    OrderIsTotal(d, order, pk, args, t, ids);
    forall x, y | x in ids && y in ids
      ensures RowOrder(d, order, args, t)(x, y) == RequestedOrder(d, r, ep, sort, t)(x, y)
    {
      OrderByPreservesMeaning(d, r.schema, pk, ep.sort, positions, args, sort, t[x], t[y]);
    }
    ArrangeAgrees(ids, RowOrder(d, order, args, t), RequestedOrder(d, r, ep, sort, t));
  }

  lemma CursorArgsBound(args: seq<Value>, ep: EndpointSpec, locals: map<string, Value>, req: Request,
                        after: Option<nat>, limit: nat)
    requires ArgsOf(args, ep, CursorTail(|ep.sort|), locals, req, Cursor(after, limit))
    ensures Param(args, CursorPosition(ep)) == CursorParam(after)
    ensures CountParam(args, |args|) == limit + 1 && CountParam(args, 0) == 0
    ensures SlotsBound(args, SortPositions(CursorPosition(ep) + 1, |ep.sort|), req.sort)
  {
    var page, slots := Cursor(after, limit), |ep.sort|;
    var tail := CursorTail(slots);
    TailIsBound(args, ep, tail, locals, req, page, 0);
    TailIsBound(args, ep, tail, locals, req, page, |tail| - 1);
    forall k | 0 <= k < 2 * slots
      ensures Param(args, CursorPosition(ep) + 1 + k) == EvalArg(SortArgs(slots)[k], locals, req, page)
    {
      TailIsBound(args, ep, tail, locals, req, page, 1 + k);
      assert tail[1 + k] == SortArgs(slots)[k];
    }
    SlotsAreBound(args, CursorPosition(ep) + 1, slots, locals, req, page);
  }

  lemma RowArgsBound(args: seq<Value>, ep: EndpointSpec, locals: map<string, Value>, req: Request, offset: nat,
                     limit: nat)
    requires ArgsOf(args, ep, RowTail(|ep.sort|), locals, req, Offset(offset, limit))
    ensures CountParam(args, |args| - 1) == limit && CountParam(args, |args|) == offset
    ensures SlotsBound(args, SortPositions(CursorPosition(ep), |ep.sort|), req.sort)
  {
    var page, slots := Offset(offset, limit), |ep.sort|;
    var tail := RowTail(slots);
    TailIsBound(args, ep, tail, locals, req, page, |tail| - 2);
    TailIsBound(args, ep, tail, locals, req, page, |tail| - 1);
    forall k | 0 <= k < 2 * slots
      ensures Param(args, CursorPosition(ep) + k) == EvalArg(SortArgs(slots)[k], locals, req, page)
    {
      TailIsBound(args, ep, tail, locals, req, page, k);
      assert tail[k] == SortArgs(slots)[k];
    }
    SlotsAreBound(args, CursorPosition(ep), slots, locals, req, page);
  }

  function CursorParam(after: Option<nat>): Value {
    if after.Some? then Uuid(after.value) else Null
  }

  lemma {:induction false} CursorCondExact(d: Dialect, pk: string, n: nat, after: Option<nat>, args: seq<Value>,
                                           row: Row)
    requires Param(args, n) == CursorParam(after)
    ensures Eval(d, Either(ParamIsNull(n), ColumnAbove(pk, n)), args, row) == True <==> AfterCursor(d, pk, after, row)
  {
  }

  lemma {:induction false} CursorRowExact(d: Dialect, r: Resource, ep: EndpointSpec, parsed: seq<Value>, req: Request,
                                          after: Option<nat>, args: seq<Value>, row: Row)
    requires |parsed| == |ep.filters| && FiltersBound(args, ep.filters, parsed) && SearchBound(args, ep, req)
    requires Param(args, CursorPosition(ep)) == CursorParam(after)
    ensures Eval(d, CursorWhere(PrimaryKey(r), r.softDelete, ep), args, row) == True
            <==> Wanted(d, r, ep, parsed, req, row) && AfterCursor(d, PrimaryKey(r), after, row)
  {
    CountWhereExact(d, r, ep, parsed, req, args, row);
    CursorCondExact(d, PrimaryKey(r), CursorPosition(ep), after, args, row);
  }

  /** Cursor mode: the statement selects exactly the wanted rows after the cursor. */
  lemma CursorWhereExact(d: Dialect, r: Resource, ep: EndpointSpec, parsed: seq<Value>, req: Request,
                         after: Option<nat>, args: seq<Value>, t: Table)
    requires |parsed| == |ep.filters| && FiltersBound(args, ep.filters, parsed) && SearchBound(args, ep, req)
    requires Param(args, CursorPosition(ep)) == CursorParam(after)
    ensures Matching(d, CursorWhere(PrimaryKey(r), r.softDelete, ep), args, t)
            == WantedAfter(d, r, ep, parsed, req, after, t)
  {
    forall id | id in t {
      CursorRowExact(d, r, ep, parsed, req, after, args, t[id]);
    }
  }

  /** Offset mode: both statements select exactly the wanted rows. */
  lemma {:induction false} OffsetWhereExact(d: Dialect, r: Resource, ep: EndpointSpec, parsed: seq<Value>, req: Request,
                                            page: PageRequest, tail: seq<ArgExpr>, args: seq<Value>, t: Table)
    requires NoCapture(ep.filters) && |parsed| == |ep.filters| && Consistent(ep.filters, parsed)
    requires ArgsOf(args, ep, tail, Locals(ep.filters, parsed), req, page)
    ensures Matching(d, CountWhere(r.softDelete, ep), args, t) == WantedAfter(d, r, ep, parsed, req, None, t)
  {
    FiltersAreBound(args, ep, tail, parsed, req, page);
    forall id | id in t
      ensures Eval(d, CountWhere(r.softDelete, ep), args, t[id]) == True <==> Wanted(d, r, ep, parsed, req, t[id])
    {
      CountWhereExact(d, r, ep, parsed, req, args, t[id]);
    }
  }

  /** The emitted ORDER BY arranges any set of stored rows as the request asks. */
  lemma {:induction false} SameArrangement(d: Dialect, r: Resource, ep: EndpointSpec, sort: seq<SortField>,
                                           positions: seq<(nat, nat)>, args: seq<Value>, t: Table, ids: set<nat>)
    requires FieldsKnown(r, ep) && Keyed(PrimaryKey(r), t) && ids <= t.Keys
    requires |positions| == |ep.sort| && SlotsBound(args, positions, sort)
    ensures var order := Matrix(r.schema, positions, ep.sort) + [ByColumn(PrimaryKey(r))];
            && StrictTotal(ids, RowOrder(d, order, args, t))
            && StrictTotal(ids, RequestedOrder(d, r, ep, sort, t))
            && Arrange(ids, RowOrder(d, order, args, t)) == Arrange(ids, RequestedOrder(d, r, ep, sort, t))
  {
    var order := Matrix(r.schema, positions, ep.sort) + [ByColumn(PrimaryKey(r))];
    OrderIsTotal(d, order, PrimaryKey(r), args, t, ids);
    forall x, y | x in ids && y in ids
      ensures RowOrder(d, order, args, t)(x, y) == RequestedOrder(d, r, ep, sort, t)(x, y)
    {
      OrderByPreservesMeaning(d, r.schema, PrimaryKey(r), ep.sort, positions, args, sort, t[x], t[y]);
    }
    ArrangeAgrees(ids, RowOrder(d, order, args, t), RequestedOrder(d, r, ep, sort, t));
  }

  /** Any statement whose WHERE keeps the wanted rows and whose ORDER BY compiles the request
      returns a window of the listing. */
  lemma {:induction false} SelectIsWindow(d: Dialect, r: Resource, ep: EndpointSpec, parsed: seq<Value>, req: Request,
                                          after: Option<nat>, q: SelectStatement, positions: seq<(nat, nat)>,
                                          args: seq<Value>, t: Table)
    requires FieldsKnown(r, ep) && Keyed(PrimaryKey(r), t) && |parsed| == |ep.filters|
    requires |positions| == |ep.sort| && SlotsBound(args, positions, req.sort)
    requires q.orderBy == Matrix(r.schema, positions, ep.sort) + [ByColumn(PrimaryKey(r))]
    requires Matching(d, q.where, args, t) == WantedAfter(d, r, ep, parsed, req, after, t)
    ensures Select(d, q, PrimaryKey(r), args, t)
            == Window(Listing(d, r, ep, parsed, req, after, t), CountParam(args, q.offset), CountParam(args, q.limit))
  {
    SameArrangement(d, r, ep, req.sort, positions, args, t, WantedAfter(d, r, ep, parsed, req, after, t));
  }

  lemma {:induction false} CursorStatementExact(d: Dialect, r: Resource, ep: EndpointSpec, parsed: seq<Value>,
                                                req: Request, after: Option<nat>, limit: nat, args: seq<Value>,
                                                t: Table)
    requires FieldsKnown(r, ep) && NoCapture(ep.filters) && Keyed(PrimaryKey(r), t)
    requires |parsed| == |ep.filters| && Consistent(ep.filters, parsed)
    requires args == EvalArgs(CursorArgs(ep), Locals(ep.filters, parsed), req, Cursor(after, limit))
    ensures Select(d, CursorQuery(r, ep), PrimaryKey(r), args, t)
            == Window(Listing(d, r, ep, parsed, req, after, t), 0, limit + 1)
  {
    FiltersAreBound(args, ep, CursorTail(|ep.sort|), parsed, req, Cursor(after, limit));
    CursorArgsBound(args, ep, Locals(ep.filters, parsed), req, after, limit);
    CursorWhereExact(d, r, ep, parsed, req, after, args, t);
    SelectIsWindow(d, r, ep, parsed, req, after, CursorQuery(r, ep), SortPositions(CursorPosition(ep) + 1, |ep.sort|),
                   args, t);
  }

  lemma {:induction false} RowStatementExact(d: Dialect, r: Resource, ep: EndpointSpec, parsed: seq<Value>,
                                             req: Request, offset: nat, limit: nat, args: seq<Value>, t: Table)
    requires FieldsKnown(r, ep) && NoCapture(ep.filters) && Keyed(PrimaryKey(r), t)
    requires |parsed| == |ep.filters| && Consistent(ep.filters, parsed)
    requires args == EvalArgs(RowArgs(ep), Locals(ep.filters, parsed), req, Offset(offset, limit))
    ensures Select(d, RowQuery(r, ep), PrimaryKey(r), args, t)
            == Window(Listing(d, r, ep, parsed, req, None, t), offset, limit)
  {
    OffsetWhereExact(d, r, ep, parsed, req, Offset(offset, limit), RowTail(|ep.sort|), args, t);
    RowArgsBound(args, ep, Locals(ep.filters, parsed), req, offset, limit);
    var q := RowQuery(r, ep);
    assert q.limit == |args| - 1 && q.offset == |args|;
    assert CountParam(args, q.offset) == offset && CountParam(args, q.limit) == limit;
    SelectIsWindow(d, r, ep, parsed, req, None, RowQuery(r, ep), SortPositions(CursorPosition(ep), |ep.sort|), args, t);
  }

  lemma {:induction false} CountStatementExact(d: Dialect, r: Resource, ep: EndpointSpec, parsed: seq<Value>,
                                               req: Request, page: PageRequest, counted: seq<Value>, t: Table)
    requires FieldsKnown(r, ep) && NoCapture(ep.filters) && Keyed(PrimaryKey(r), t)
    requires |parsed| == |ep.filters| && Consistent(ep.filters, parsed)
    requires counted == EvalArgs(CountArgs(ep), Locals(ep.filters, parsed), req, page)
    ensures |Matching(d, CountWhere(r.softDelete, ep), counted, t)| == |Listing(d, r, ep, parsed, req, None, t)|
  {
    assert CountArgs(ep) + [] == CountArgs(ep);
    OffsetWhereExact(d, r, ep, parsed, req, page, [], counted, t);
    ListingFacts(d, r, ep, parsed, req, None, t);
  }

  // ----- Running a helper ---------------------------------------------------

  /** The cursor branch of an emitted helper: its first statement, with its own arguments. */
  function CursorRows(d: Dialect, h: ListHelper, pk: string, parsed: seq<Value>, req: Request, after: Option<nat>,
                      limit: nat, t: Table): seq<nat>
    requires EndsWithKey(h.cursorQuery.orderBy, pk) && Keyed(pk, t) && |parsed| == |h.filters|
  {
    var args := EvalArgs(h.cursorArgs, Locals(h.filters, parsed), req, Cursor(after, limit));
    Select(d, h.cursorQuery, pk, args, t)
  }

  /** The offset branch: the rows, and the count. */
  function OffsetRows(d: Dialect, h: ListHelper, pk: string, parsed: seq<Value>, req: Request, offset: nat,
                      limit: nat, t: Table): seq<nat>
    requires EndsWithKey(h.rowQuery.orderBy, pk) && Keyed(pk, t) && |parsed| == |h.filters|
  {
    var args := EvalArgs(h.rowArgs, Locals(h.filters, parsed), req, Offset(offset, limit));
    Select(d, h.rowQuery, pk, args, t)
  }

  function CountedRows(d: Dialect, h: ListHelper, parsed: seq<Value>, req: Request, page: PageRequest, t: Table): nat
    requires |parsed| == |h.filters|
  {
    |Matching(d, h.countWhere, EvalArgs(h.countArgs, Locals(h.filters, parsed), req, page), t)|
  }

  lemma HelperEndsWithKey(r: Resource, ep: EndpointSpec, h: ListHelper)
    requires FieldsKnown(r, ep) && h == HelperFor(r, ep)
    ensures EndsWithKey(h.cursorQuery.orderBy, PrimaryKey(r)) && EndsWithKey(h.rowQuery.orderBy, PrimaryKey(r))
    ensures h.filters == ep.filters
  {
  }

  /** Main result, cursor mode: the cursor branch of the emitted helper returns the first
      limit + 1 wanted rows after the cursor, in the requested order. */
  lemma CursorQueryExact(d: Dialect, r: Resource, ep: EndpointSpec, h: ListHelper, parsed: seq<Value>, req: Request,
                         after: Option<nat>, limit: nat, t: Table)
    requires FieldsKnown(r, ep) && h == HelperFor(r, ep) && NoCapture(ep.filters) && Keyed(PrimaryKey(r), t)
    requires |parsed| == |ep.filters| && Consistent(ep.filters, parsed)
    ensures EndsWithKey(h.cursorQuery.orderBy, PrimaryKey(r)) && h.filters == ep.filters
    ensures CursorRows(d, h, PrimaryKey(r), parsed, req, after, limit, t)
            == Window(Listing(d, r, ep, parsed, req, after, t), 0, limit + 1)
  {
    HelperEndsWithKey(r, ep, h);
    var args := EvalArgs(CursorArgs(ep), Locals(ep.filters, parsed), req, Cursor(after, limit));
    CursorStatementExact(d, r, ep, parsed, req, after, limit, args, t);
  }

  /** Main result, offset mode: the offset branch returns the requested window of the wanted
      rows. */
  lemma OffsetQueryExact(d: Dialect, r: Resource, ep: EndpointSpec, h: ListHelper, parsed: seq<Value>, req: Request,
                         offset: nat, limit: nat, t: Table)
    requires FieldsKnown(r, ep) && h == HelperFor(r, ep) && NoCapture(ep.filters) && Keyed(PrimaryKey(r), t)
    requires |parsed| == |ep.filters| && Consistent(ep.filters, parsed)
    ensures EndsWithKey(h.rowQuery.orderBy, PrimaryKey(r)) && h.filters == ep.filters
    ensures OffsetRows(d, h, PrimaryKey(r), parsed, req, offset, limit, t)
            == Window(Listing(d, r, ep, parsed, req, None, t), offset, limit)
  {
    HelperEndsWithKey(r, ep, h);
    var args := EvalArgs(RowArgs(ep), Locals(ep.filters, parsed), req, Offset(offset, limit));
    RowStatementExact(d, r, ep, parsed, req, offset, limit, args, t);
  }

  /** The total it reports is the number of wanted rows, whatever the page. */
  lemma TotalExact(d: Dialect, r: Resource, ep: EndpointSpec, h: ListHelper, parsed: seq<Value>, req: Request,
                   page: PageRequest, t: Table)
    requires FieldsKnown(r, ep) && h == HelperFor(r, ep) && NoCapture(ep.filters) && Keyed(PrimaryKey(r), t)
    requires |parsed| == |ep.filters| && Consistent(ep.filters, parsed)
    ensures h.filters == ep.filters
    ensures CountedRows(d, h, parsed, req, page, t) == |Listing(d, r, ep, parsed, req, None, t)|
  {
    HelperEndsWithKey(r, ep, h);
    var counted := EvalArgs(CountArgs(ep), Locals(ep.filters, parsed), req, page);
    CountStatementExact(d, r, ep, parsed, req, page, counted, t);
  }

  lemma WindowsJoin<T>(listing: seq<T>, start: nat, limit: nat)
    ensures Window(listing, 0, start) + Window(listing, start, limit) == Window(listing, 0, start + limit)
  {
  }

  /** Consecutive offset pages of one listing join up to the listing. */
  lemma {:induction false} OffsetPagesPartition<T>(listing: seq<T>, limit: nat, pages: nat)
    requires limit >= 1
    ensures JoinPages(listing, limit, pages) == Window(listing, 0, pages * limit)
    ensures pages * limit >= |listing| ==> JoinPages(listing, limit, pages) == listing
  {
    if pages > 0 {
      OffsetPagesPartition(listing, limit, pages - 1);
      var start := (pages - 1) * limit;
      assert pages * limit == start + limit;
      WindowsJoin(listing, start, limit);
    }
  }

  function JoinPages<T>(listing: seq<T>, limit: nat, pages: nat): seq<T> {
    if pages == 0 then [] else JoinPages(listing, limit, pages - 1) + Window(listing, (pages - 1) * limit, limit)
  }

  // ----- Placeholders ------------------------------------------------------

  predicate CondUses(c: Cond, n: nat) {
    match c
    case Always => false
    case ColumnIsNull(_) => false
    case ParamIsNull(k) => n == k
    case ColumnEquals(_, k) => n == k
    case ColumnAbove(_, k) => n == k
    case TextSearch(_, k) => n == k
    case Either(a, b) => CondUses(a, n) || CondUses(b, n)
    case Both(a, b) => CondUses(a, n) || CondUses(b, n)
  }

  predicate ClauseUses(k: OrderClause, n: nat) {
    k.CaseWhen? && (n == k.fieldParam || n == k.directionParam)
  }

  predicate OrderUses(order: seq<OrderClause>, n: nat) {
    order != [] && (OrderUses(order[..|order| - 1], n) || ClauseUses(order[|order| - 1], n))
  }

  predicate QueryUses(q: SelectStatement, n: nat) {
    CondUses(q.where, n) || OrderUses(q.orderBy, n) || (q.limit != 0 && n == q.limit)
      || (q.offset != 0 && n == q.offset)
  }

  lemma {:induction false} OrderUsesConcat(xs: seq<OrderClause>, ys: seq<OrderClause>, n: nat)
    ensures OrderUses(xs + ys, n) <==> OrderUses(xs, n) || OrderUses(ys, n)
  {
    if ys == [] {
      assert xs + ys == xs;
    } else {
      var front, last := ys[..|ys| - 1], ys[|ys| - 1];
      assert (xs + ys)[..|xs + ys| - 1] == xs + front;
      OrderUsesConcat(xs, front, n);
    }
  }

  lemma {:induction false} BlockUses(schema: IndexMap<FieldSchema>, pos: (nat, nat), candidates: seq<string>, n: nat)
    requires forall f :: f in candidates ==> f in schema.at
    ensures OrderUses(SlotBlock(schema, pos, candidates), n) <==> candidates != [] && (n == pos.0 || n == pos.1)
  {
    if candidates != [] {
      var front, last := candidates[..|candidates| - 1], candidates[|candidates| - 1];
      BlockUses(schema, pos, front, n);
      var pair := CandidatePair(schema, pos, last);
      assert OrderUses(pair, n) <==> n == pos.0 || n == pos.1 by {
        var one := pair[..1];
        assert one == [pair[0]] && one[..0] == [];
        assert OrderUses(one, n) <==> ClauseUses(pair[0], n);
      }
      OrderUsesConcat(SlotBlock(schema, pos, front), pair, n);
    }
  }

  lemma {:induction false} MatrixUses(schema: IndexMap<FieldSchema>, first: nat, slots: nat, candidates: seq<string>,
                                      n: nat)
    requires (forall f :: f in candidates ==> f in schema.at) && (slots > 0 ==> candidates != [])
    ensures OrderUses(Matrix(schema, SortPositions(first, slots), candidates), n) <==> first <= n < first + 2 * slots
  {
    if slots > 0 {
      var positions := SortPositions(first, slots);
      var front, last := positions[..slots - 1], positions[slots - 1];
      assert front == SortPositions(first, slots - 1);
      MatrixUses(schema, first, slots - 1, candidates, n);
      BlockUses(schema, last, candidates, n);
      OrderUsesConcat(Matrix(schema, front, candidates), SlotBlock(schema, last, candidates), n);
    }
  }

  lemma {:induction false} FilterWhereUses(base: Cond, filters: seq<string>, n: nat)
    ensures CondUses(FilterWhere(base, filters), n) <==> CondUses(base, n) || 1 <= n <= |filters|
  {
    if filters != [] {
      FilterWhereUses(base, filters[..|filters| - 1], n);
      assert CondUses(FilterPredicate(filters[|filters| - 1], |filters|), n) <==> n == |filters|;
    }
  }

  lemma {:induction false} CountWhereUses(softDelete: bool, ep: EndpointSpec, n: nat)
    ensures CondUses(CountWhere(softDelete, ep), n) <==> 1 <= n <= |CountArgs(ep)|
  {
    var base := if softDelete then Both(Always, ColumnIsNull("deleted_at")) else Always;
    assert !CondUses(base, n);
    FilterWhereUses(base, ep.filters, n);
    var k := |ep.filters| + 1;
    assert CondUses(Either(ParamIsNull(k), TextSearch(ep.search, k)), n) <==> n == k;
  }

  lemma {:induction false} OrderOnlyUses(r: Resource, ep: EndpointSpec, first: nat, n: nat)
    requires FieldsKnown(r, ep)
    ensures OrderUses(Matrix(r.schema, SortPositions(first, |ep.sort|), ep.sort) + [ByColumn(PrimaryKey(r))], n)
            <==> first <= n < first + 2 * |ep.sort|
  {
    MatrixUses(r.schema, first, |ep.sort|, ep.sort, n);
    OrderUsesConcat(Matrix(r.schema, SortPositions(first, |ep.sort|), ep.sort), [ByColumn(PrimaryKey(r))], n);
    var last := [ByColumn(PrimaryKey(r))];
    assert last[..0] == [];
  }

  lemma {:induction false} CursorWhereUses(pk: string, softDelete: bool, ep: EndpointSpec, n: nat)
    ensures CondUses(CursorWhere(pk, softDelete, ep), n) <==> 1 <= n <= CursorPosition(ep)
  {
    var k := CursorPosition(ep);
    CountWhereUses(softDelete, ep, n);
    assert CondUses(Either(ParamIsNull(k), ColumnAbove(pk, k)), n) <==> n == k;
  }

  lemma CursorQueryUses(r: Resource, ep: EndpointSpec, n: nat)
    requires FieldsKnown(r, ep)
    ensures QueryUses(CursorQuery(r, ep), n) <==> 1 <= n <= |CursorArgs(ep)|
  {
    CursorWhereUses(PrimaryKey(r), r.softDelete, ep, n);
    OrderOnlyUses(r, ep, CursorPosition(ep) + 1, n);
  }

  lemma RowQueryUses(r: Resource, ep: EndpointSpec, n: nat)
    requires FieldsKnown(r, ep)
    ensures QueryUses(RowQuery(r, ep), n) <==> 1 <= n <= |RowArgs(ep)|
  {
    CountWhereUses(r.softDelete, ep, n);
    OrderOnlyUses(r, ep, CursorPosition(ep), n);
  }

  /** Every statement uses exactly the placeholders 1 to the number of its arguments. */
  lemma {:induction false} PlaceholdersExact(r: Resource, ep: EndpointSpec, n: nat)
    requires FieldsKnown(r, ep)
    ensures CondUses(HelperFor(r, ep).countWhere, n) <==> 1 <= n <= |HelperFor(r, ep).countArgs|
    ensures QueryUses(HelperFor(r, ep).cursorQuery, n) <==> 1 <= n <= |HelperFor(r, ep).cursorArgs|
    ensures QueryUses(HelperFor(r, ep).rowQuery, n) <==> 1 <= n <= |HelperFor(r, ep).rowArgs|
  {
    CountWhereUses(r.softDelete, ep, n);
    CursorQueryUses(r, ep, n);
    RowQueryUses(r, ep, n);
  }
}
