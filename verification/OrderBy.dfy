/** The ORDER BY compiler. A list endpoint fixes its sortable fields when code is generated,
    but the fields and directions asked for arrive with the request; the emitted clause is
    therefore a square of CASE expressions that switches itself on by comparing parameters. */
module OrderBy {
  import opened Prelude
  import opened Values
  import opened Schema

  // ----- The emitted clause ------------------------------------------------

  datatype SortExpr = Column(name: string) | TextOf(name: string) | DoubleOf(name: string)

  datatype Direction = Asc | Desc

  datatype OrderClause =
    | CaseWhen(fieldParam: nat, candidate: string, directionParam: nat, switch: Direction, expr: SortExpr,
               order: Direction)
    | ByColumn(column: string)

  function Keyword(dir: Direction): string {
    match dir
    case Asc => "asc"
    case Desc => "desc"
  }

  /** JSON, array and uuid columns sort by their text, numeric columns as doubles. */
  function SortableExpression(name: string, ft: FieldType): SortExpr {
    match ft
    case JsonType => TextOf(name)
    case ArrayType => TextOf(name)
    case UuidType => TextOf(name)
    case NumberType => DoubleOf(name)
    case _ => Column(name)
  }

  /** The two clauses testing whether a slot asks for `candidate`. */
  function CandidatePair(schema: IndexMap<FieldSchema>, pos: (nat, nat), candidate: string): seq<OrderClause>
    requires candidate in schema.at
  {
    var expr := SortableExpression(candidate, schema.at[candidate].fieldType);
    [CaseWhen(pos.0, candidate, pos.1, Asc, expr, Asc), CaseWhen(pos.0, candidate, pos.1, Desc, expr, Desc)]
  }

  function SlotBlock(schema: IndexMap<FieldSchema>, pos: (nat, nat), candidates: seq<string>): seq<OrderClause>
    requires forall f :: f in candidates ==> f in schema.at
  {
    if candidates == [] then []
    else SlotBlock(schema, pos, candidates[..|candidates| - 1])
         + CandidatePair(schema, pos, candidates[|candidates| - 1])
  }

  function Matrix(schema: IndexMap<FieldSchema>, positions: seq<(nat, nat)>, candidates: seq<string>): seq<OrderClause>
    requires forall f :: f in candidates ==> f in schema.at
  {
    if positions == [] then []
    else Matrix(schema, positions[..|positions| - 1], candidates)
         + SlotBlock(schema, positions[|positions| - 1], candidates)
  }

  lemma {:induction false} BlockGrows(schema: IndexMap<FieldSchema>, pos: (nat, nat), candidates: seq<string>, j: nat)
    requires j < |candidates| && forall f :: f in candidates[..j + 1] ==> f in schema.at
    ensures (forall f :: f in candidates[..j] ==> f in schema.at) && candidates[j] in schema.at
    ensures SlotBlock(schema, pos, candidates[..j + 1])
            == SlotBlock(schema, pos, candidates[..j]) + CandidatePair(schema, pos, candidates[j])
  {
    var upTo := candidates[..j + 1];
    assert upTo[..j] == candidates[..j] && upTo[j] == candidates[j];
    forall f | f in candidates[..j]
      ensures f in upTo
    {
      var k :| 0 <= k < j && candidates[k] == f;
      assert upTo[k] == f;
    }
  }

  lemma {:induction false} MatrixGrows(schema: IndexMap<FieldSchema>, positions: seq<(nat, nat)>,
                                       candidates: seq<string>, i: nat)
    requires i < |positions| && forall f :: f in candidates ==> f in schema.at
    ensures Matrix(schema, positions[..i + 1], candidates)
            == Matrix(schema, positions[..i], candidates) + SlotBlock(schema, positions[i], candidates)
  {
    var upTo := positions[..i + 1];
    assert upTo[..i] == positions[..i] && upTo[i] == positions[i];
  }

  /** Pushes the clauses slot by slot, candidate by candidate, then the primary key.
      Fails exactly when a declared field is missing from the schema. */
  method GenerateOrderBy(schema: IndexMap<FieldSchema>, pk: string, sortFields: seq<string>, positions: seq<(nat, nat)>)
    returns (r: Result<seq<OrderClause>, string>)
    requires |positions| == |sortFields|
    ensures r.Ok? <==> forall f :: f in sortFields ==> f in schema.at
    ensures r.Ok? ==> r.value == Matrix(schema, positions, sortFields) + [ByColumn(pk)]
    ensures r.Err? ==> FirstMissing(sortFields, schema.at) == Some(r.error)
  {
    if |sortFields| == 0 {
      return Ok([ByColumn(pk)]);
    }
    var clauses: seq<OrderClause> := [];
    for i := 0 to |positions|
      invariant i > 0 ==> forall f :: f in sortFields ==> f in schema.at
      invariant i == 0 ==> clauses == []
      invariant i > 0 ==> clauses == Matrix(schema, positions[..i], sortFields)
    {
      var block := GenerateSlot(schema, positions[i], sortFields);
      if block.Err? {
        return Err(block.error);
      }
      MatrixGrows(schema, positions, sortFields, i);
      assert i == 0 ==> Matrix(schema, positions[..i], sortFields) == [];
      clauses := clauses + block.value;
    }
    assert positions[..|positions|] == positions;
    return Ok(clauses + [ByColumn(pk)]);
  }

  /** The clauses of one slot: two for every candidate. */
  method GenerateSlot(schema: IndexMap<FieldSchema>, position: (nat, nat), sortFields: seq<string>)
    returns (r: Result<seq<OrderClause>, string>)
    ensures r.Ok? <==> forall f :: f in sortFields ==> f in schema.at
    ensures r.Ok? ==> r.value == SlotBlock(schema, position, sortFields)
    ensures r.Err? ==> FirstMissing(sortFields, schema.at) == Some(r.error)
  {
    var clauses: seq<OrderClause> := [];
    for j := 0 to |sortFields|
      invariant forall f :: f in sortFields[..j] ==> f in schema.at
      invariant clauses == SlotBlock(schema, position, sortFields[..j])
    {
      var candidate := sortFields[j];
      if candidate !in schema.at {
        MissingAt(sortFields, schema.at, j);
        return Err(candidate);
      }
      assert sortFields[..j + 1] == sortFields[..j] + [candidate];
      BlockGrows(schema, position, sortFields, j);
      var expr := SortableExpression(candidate, schema.at[candidate].fieldType);
      clauses := clauses + [
        CaseWhen(position.0, candidate, position.1, Asc, expr, Asc),
        CaseWhen(position.0, candidate, position.1, Desc, expr, Desc)];
    }
    assert sortFields[..|sortFields|] == sortFields;
    return Ok(clauses);
  }

  // ----- What the engine does with it --------------------------------------

  function Param(args: seq<Value>, n: nat): Value {
    if 1 <= n <= |args| then args[n - 1] else Null
  }

  function SortKey(d: Dialect, e: SortExpr, row: Row): Value {
    match e
    case Column(c) => Col(row, c)
    case TextOf(c) => if Col(row, c) == Null then Null else Text(d.render(Col(row, c)))
    case DoubleOf(c) => if Col(row, c).Number? then Number(d.toDouble(Col(row, c).n)) else Col(row, c)
  }

  /** A CASE whose condition is false or unknown yields NULL. */
  function ClauseKey(d: Dialect, clause: OrderClause, args: seq<Value>, row: Row): Value {
    match clause
    case CaseWhen(fp, candidate, dp, switch, expr, _) =>
      if Param(args, fp) == Text(candidate) && Param(args, dp) == Text(Keyword(switch))
      then SortKey(d, expr, row) else Null
    case ByColumn(c) => Col(row, c)
  }

  function Oriented(dir: Direction, o: Ordering): Ordering {
    if dir == Desc then o.Flip() else o
  }

  function ClauseOrder(clause: OrderClause): Direction {
    if clause.CaseWhen? then clause.order else Asc
  }

  function ClauseCompare(d: Dialect, clause: OrderClause, args: seq<Value>, a: Row, b: Row): Ordering {
    Oriented(ClauseOrder(clause), Compare(d, ClauseKey(d, clause, args, a), ClauseKey(d, clause, args, b)))
  }

  function Then(first: Ordering, second: Ordering): Ordering {
    if first == Eq then second else first
  }

  /** Sort keys decide from left to right. */
  function CompareBy(d: Dialect, clauses: seq<OrderClause>, args: seq<Value>, a: Row, b: Row): Ordering {
    if clauses == [] then Eq
    else Then(ClauseCompare(d, clauses[0], args, a, b), CompareBy(d, clauses[1..], args, a, b))
  }

  // ----- What the request asks for -----------------------------------------

  datatype SortField = SortField(field: string, direction: Direction)

  /** What a column's value is ordered by: a number as a double, JSON, arrays and uuids by their
      text, anything else as it is stored. */
  function ValueKey(d: Dialect, ft: FieldType, v: Value): Value {
    if ft == NumberType && v.Number? then Number(d.toDouble(v.n))
    else if ft in {JsonType, ArrayType, UuidType} && v != Null then Text(d.render(v))
    else v
  }

  /** One requested sort field, NULL values placed as the engine places them. A name the
      endpoint does not declare has no effect. */
  function SlotCompare(d: Dialect, schema: IndexMap<FieldSchema>, declared: seq<string>, s: SortField, a: Row,
                       b: Row): Ordering
    requires forall f :: f in declared ==> f in schema.at
  {
    if s.field in declared then
      var ft := schema.at[s.field].fieldType;
      Oriented(s.direction, Compare(d, ValueKey(d, ft, Col(a, s.field)), ValueKey(d, ft, Col(b, s.field))))
    else Eq
  }

  /** Lexicographic comparison by the requested fields, in order. */
  function RequestCompare(d: Dialect, schema: IndexMap<FieldSchema>, declared: seq<string>, sort: seq<SortField>,
                          a: Row, b: Row): Ordering
    requires forall f :: f in declared ==> f in schema.at
  {
    if sort == [] then Eq
    else Then(RequestCompare(d, schema, declared, sort[..|sort| - 1], a, b),
              SlotCompare(d, schema, declared, sort[|sort| - 1], a, b))
  }

  /** Only as many requested fields as the endpoint declares reach the query. */
  function Kept(sort: seq<SortField>, slots: nat): seq<SortField> {
    if |sort| <= slots then sort else sort[..slots]
  }

  function PkCompare(d: Dialect, pk: string, a: Row, b: Row): Ordering {
    Compare(d, Col(a, pk), Col(b, pk))
  }

  function SlotField(sort: seq<SortField>, i: nat): Value {
    if i < |sort| then Text(sort[i].field) else Null
  }

  function SlotDirection(sort: seq<SortField>, i: nat): Value {
    if i < |sort| then Text(Keyword(sort[i].direction)) else Null
  }

  /** The parameters at `positions` carry the request's sort fields and directions. */
  predicate SlotsBound(args: seq<Value>, positions: seq<(nat, nat)>, sort: seq<SortField>) {
    forall i :: 0 <= i < |positions| ==>
      Param(args, positions[i].0) == SlotField(sort, i) && Param(args, positions[i].1) == SlotDirection(sort, i)
  }

  // ----- The compiled order means the requested order ----------------------

  lemma {:induction false} CompareByConcat(d: Dialect, xs: seq<OrderClause>, ys: seq<OrderClause>, args: seq<Value>,
                                           a: Row, b: Row)
    ensures CompareBy(d, xs + ys, args, a, b) == Then(CompareBy(d, xs, args, a, b), CompareBy(d, ys, args, a, b))
  {
    if xs == [] {
      assert xs + ys == ys;
    } else {
      assert (xs + ys)[1..] == xs[1..] + ys;
      CompareByConcat(d, xs[1..], ys, args, a, b);
    }
  }

  /** One row of the matrix compares by the field its parameters name, or not at all. */
  lemma {:induction false} BlockMeansSlot(d: Dialect, schema: IndexMap<FieldSchema>, pos: (nat, nat),
                                          candidates: seq<string>, args: seq<Value>, sort: seq<SortField>, i: nat,
                                          a: Row, b: Row)
    requires forall f :: f in candidates ==> f in schema.at
    requires Param(args, pos.0) == SlotField(sort, i) && Param(args, pos.1) == SlotDirection(sort, i)
    ensures CompareBy(d, SlotBlock(schema, pos, candidates), args, a, b)
            == if i < |sort| then SlotCompare(d, schema, candidates, sort[i], a, b) else Eq
  {
    if candidates != [] {
      var n := |candidates| - 1;
      var front, last := candidates[..n], candidates[n];
      assert candidates == front + [last];
      BlockMeansSlot(d, schema, pos, front, args, sort, i, a, b);
      var pair := CandidatePair(schema, pos, last);
      CompareByConcat(d, SlotBlock(schema, pos, front), pair, args, a, b);
      PairMeansSlot(d, schema, pos, last, args, sort, i, a, b);
    }
  }

  /** The compiled expression of a column yields what its values are ordered by. */
  lemma ExpressionMeansKey(d: Dialect, column: string, ft: FieldType, row: Row)
    ensures SortKey(d, SortableExpression(column, ft), row) == ValueKey(d, ft, Col(row, column))
  {
  }

  lemma {:induction false} PairMeansSlot(d: Dialect, schema: IndexMap<FieldSchema>, pos: (nat, nat), candidate: string,
                                         args: seq<Value>, sort: seq<SortField>, i: nat, a: Row, b: Row)
    requires candidate in schema.at
    requires Param(args, pos.0) == SlotField(sort, i) && Param(args, pos.1) == SlotDirection(sort, i)
    ensures CompareBy(d, CandidatePair(schema, pos, candidate), args, a, b)
            == if i < |sort| && sort[i].field == candidate then SlotCompare(d, schema, [candidate], sort[i], a, b)
               else Eq
  {
    ExpressionMeansKey(d, candidate, schema.at[candidate].fieldType, a);
    ExpressionMeansKey(d, candidate, schema.at[candidate].fieldType, b);
    var pair := CandidatePair(schema, pos, candidate);
    var second := pair[1..];
    assert second == [pair[1]] && second[1..] == [];
    assert CompareBy(d, second, args, a, b) == ClauseCompare(d, pair[1], args, a, b);
    assert CompareBy(d, pair, args, a, b)
           == Then(ClauseCompare(d, pair[0], args, a, b), ClauseCompare(d, pair[1], args, a, b));
    assert Keyword(Asc) == "asc" && Keyword(Asc)[0] != Keyword(Desc)[0];
  }

  lemma {:induction false} MatrixMeansRequest(d: Dialect, schema: IndexMap<FieldSchema>, declared: seq<string>,
                                              positions: seq<(nat, nat)>, args: seq<Value>, sort: seq<SortField>,
                                              a: Row, b: Row)
    requires forall f :: f in declared ==> f in schema.at
    requires SlotsBound(args, positions, sort)
    ensures CompareBy(d, Matrix(schema, positions, declared), args, a, b)
            == RequestCompare(d, schema, declared, Kept(sort, |positions|), a, b)
  {
    if positions != [] {
      var n := |positions| - 1;
      MatrixMeansRequest(d, schema, declared, positions[..n], args, sort, a, b);
      CompareByConcat(d, Matrix(schema, positions[..n], declared), SlotBlock(schema, positions[n], declared), args, a,
                      b);
      BlockMeansSlot(d, schema, positions[n], declared, args, sort, n, a, b);
      KeptGrows(d, schema, declared, sort, n, a, b);
    }
  }

  lemma {:induction false} KeptGrows(d: Dialect, schema: IndexMap<FieldSchema>, declared: seq<string>,
                                     sort: seq<SortField>, n: nat, a: Row, b: Row)
    requires forall f :: f in declared ==> f in schema.at
    ensures RequestCompare(d, schema, declared, Kept(sort, n + 1), a, b)
            == Then(RequestCompare(d, schema, declared, Kept(sort, n), a, b),
                    if n < |sort| then SlotCompare(d, schema, declared, sort[n], a, b) else Eq)
  {
    if n < |sort| {
      var kept := Kept(sort, n + 1);
      assert kept[..|kept| - 1] == Kept(sort, n);
    }
  }

  /** Main result: on any two rows, NULL columns included, the emitted clause compares exactly
      as the request's first |declared| sort fields do, with the primary key breaking ties. */
  lemma {:induction false} OrderByPreservesMeaning(d: Dialect, schema: IndexMap<FieldSchema>, pk: string,
                                                   declared: seq<string>, positions: seq<(nat, nat)>, args: seq<Value>,
                                                   sort: seq<SortField>, a: Row, b: Row)
    requires forall f :: f in declared ==> f in schema.at
    requires |positions| == |declared| && SlotsBound(args, positions, sort)
    ensures CompareBy(d, Matrix(schema, positions, declared) + [ByColumn(pk)], args, a, b)
            == Then(RequestCompare(d, schema, declared, Kept(sort, |declared|), a, b), PkCompare(d, pk, a, b))
  {
    MatrixMeansRequest(d, schema, declared, positions, args, sort, a, b);
    CompareByConcat(d, Matrix(schema, positions, declared), [ByColumn(pk)], args, a, b);
    var last := [ByColumn(pk)];
    assert last[1..] == [];
    assert CompareBy(d, last, args, a, b) == ClauseCompare(d, last[0], args, a, b);
  }

  /** A request for one declared field, against the engine's own order of values. */
  lemma {:induction false} SingleSortMeans(d: Dialect, schema: IndexMap<FieldSchema>, pk: string, declared: seq<string>,
                                           positions: seq<(nat, nat)>, args: seq<Value>, s: SortField, a: Row, b: Row)
    requires (forall f :: f in declared ==> f in schema.at) && s.field in declared
    requires |positions| == |declared| && SlotsBound(args, positions, [s])
    ensures CompareBy(d, Matrix(schema, positions, declared) + [ByColumn(pk)], args, a, b)
            == Then(SlotCompare(d, schema, declared, s, a, b), PkCompare(d, pk, a, b))
  {
    OrderByPreservesMeaning(d, schema, pk, declared, positions, args, [s], a, b);
    assert Kept([s], |declared|) == [s] && [s][..0] == [];
    assert RequestCompare(d, schema, declared, [], a, b) == Eq;
  }

  /** `x` comes before `y` in the direction asked for. */
  predicate Precedes(d: Dialect, dir: Direction, x: Value, y: Value) {
    if dir == Asc then d.before(x, y) else d.before(y, x)
  }

  /** Main result, what one requested field does to the emitted order: NULL comes last going up
      and first going down; numbers compare as doubles, JSON, arrays and uuids by their text, and
      everything else as it is stored; rows that tie are left to the key. */
  lemma {:induction false} SingleSortOrders(d: Dialect, schema: IndexMap<FieldSchema>, pk: string,
                                            declared: seq<string>, positions: seq<(nat, nat)>, args: seq<Value>,
                                            s: SortField, a: Row, b: Row)
    requires (forall f :: f in declared ==> f in schema.at) && s.field in declared
    requires |positions| == |declared| && SlotsBound(args, positions, [s])
    ensures var ft, x, y := schema.at[s.field].fieldType, Col(a, s.field), Col(b, s.field);
            var o := CompareBy(d, Matrix(schema, positions, declared) + [ByColumn(pk)], args, a, b);
            && (x != Null && y == Null ==> o == if s.direction == Asc then Lt else Gt)
            && (x == Null && y != Null ==> o == if s.direction == Asc then Gt else Lt)
            && (x == y ==> o == PkCompare(d, pk, a, b))
            && (ft == NumberType && x.Number? && y.Number? ==>
                  var u, v := Number(d.toDouble(x.n)), Number(d.toDouble(y.n));
                  o == if u == v then PkCompare(d, pk, a, b) else if Precedes(d, s.direction, u, v) then Lt else Gt)
            && (ft in {JsonType, ArrayType, UuidType} && x != Null && y != Null ==>
                  var u, v := Text(d.render(x)), Text(d.render(y));
                  o == if u == v then PkCompare(d, pk, a, b) else if Precedes(d, s.direction, u, v) then Lt else Gt)
            && (ft !in {NumberType, JsonType, ArrayType, UuidType} && x != Null && y != Null && x != y ==>
                  o == if Precedes(d, s.direction, x, y) then Lt else Gt)
  {
    SingleSortMeans(d, schema, pk, declared, positions, args, s, a, b);
  }

  lemma {:induction false} CompareByFlips(d: Dialect, clauses: seq<OrderClause>, args: seq<Value>, a: Row, b: Row)
    ensures CompareBy(d, clauses, args, b, a) == CompareBy(d, clauses, args, a, b).Flip()
  {
    if clauses != [] {
      var k := clauses[0];
      CompareIsTotalOrder(d, ClauseKey(d, k, args, a), ClauseKey(d, k, args, b), Null);
      CompareByFlips(d, clauses[1..], args, a, b);
    }
  }

  /** One clause is transitive, and compares alike what it does not tell apart. */
  lemma ClauseIsOrder(d: Dialect, k: OrderClause, args: seq<Value>, a: Row, b: Row, c: Row)
    ensures ClauseCompare(d, k, args, a, b) == Eq ==> ClauseCompare(d, k, args, a, c) == ClauseCompare(d, k, args, b, c)
    ensures ClauseCompare(d, k, args, b, c) == Eq ==> ClauseCompare(d, k, args, a, b) == ClauseCompare(d, k, args, a, c)
    ensures ClauseCompare(d, k, args, a, b) == Lt && ClauseCompare(d, k, args, b, c) == Lt
            ==> ClauseCompare(d, k, args, a, c) == Lt
  {
    CompareIsTotalOrder(d, ClauseKey(d, k, args, a), ClauseKey(d, k, args, b), ClauseKey(d, k, args, c));
    CompareIsTotalOrder(d, ClauseKey(d, k, args, c), ClauseKey(d, k, args, b), ClauseKey(d, k, args, a));
  }

  /** Any clause list orders rows antisymmetrically and transitively. */
  lemma {:induction false} CompareByIsOrder(d: Dialect, clauses: seq<OrderClause>, args: seq<Value>, a: Row, b: Row,
                                            c: Row)
    ensures CompareBy(d, clauses, args, b, a) == CompareBy(d, clauses, args, a, b).Flip()
    ensures CompareBy(d, clauses, args, a, b) == Eq
            ==> CompareBy(d, clauses, args, a, c) == CompareBy(d, clauses, args, b, c)
    ensures CompareBy(d, clauses, args, b, c) == Eq
            ==> CompareBy(d, clauses, args, a, b) == CompareBy(d, clauses, args, a, c)
    ensures CompareBy(d, clauses, args, a, b) == Lt && CompareBy(d, clauses, args, b, c) == Lt
            ==> CompareBy(d, clauses, args, a, c) == Lt
  {
    CompareByFlips(d, clauses, args, a, b);
    if clauses != [] {
      ClauseIsOrder(d, clauses[0], args, a, b, c);
      CompareByIsOrder(d, clauses[1..], args, a, b, c);
    }
  }

  /** With the primary key as last clause, rows compare equal only when their keys are equal. */
  lemma {:induction false} CompareByDecides(d: Dialect, front: seq<OrderClause>, pk: string, args: seq<Value>, a: Row,
                                            b: Row)
    ensures CompareBy(d, front + [ByColumn(pk)], args, a, b) == Eq ==> Col(a, pk) == Col(b, pk)
  {
    CompareByConcat(d, front, [ByColumn(pk)], args, a, b);
    var last := [ByColumn(pk)];
    assert last[1..] == [];
    assert CompareBy(d, last, args, a, b) == ClauseCompare(d, last[0], args, a, b);
  }

  // ----- Slots that can tell rows apart ------------------------------------

  /** Two rows of one table: identified by different uuids. */
  predicate TwoKeys(pk: string, a: Row, b: Row) {
    Col(a, pk).Uuid? && Col(b, pk).Uuid? && Col(a, pk) != Col(b, pk)
  }

  ghost predicate UuidWhereDeclared(schema: IndexMap<FieldSchema>, pk: string, declared: seq<string>) {
    (forall f :: f in declared ==> f in schema.at) && (pk in declared ==> schema.at[pk].fieldType == UuidType)
  }

  /** Rows with uuid keys sort by the key's text as they do by the key. */
  lemma KeySlot(d: Dialect, schema: IndexMap<FieldSchema>, declared: seq<string>, pk: string, s: SortField, a: Row,
                b: Row)
    requires UuidWhereDeclared(schema, pk, declared) && pk in declared && s.field == pk && TwoKeys(pk, a, b)
    ensures SlotCompare(d, schema, declared, s, a, b) == Oriented(s.direction, PkCompare(d, pk, a, b))
  {
    var x, y := Col(a, pk).id, Col(b, pk).id;
    assert d.before(Text(d.render(Uuid(x))), Text(d.render(Uuid(y)))) <==> x < y;
    assert d.before(Text(d.render(Uuid(y))), Text(d.render(Uuid(x)))) <==> y < x;
  }

  /** Slot `i` names a declared field, and no slot in effect before it names that field or
      the key. */
  predicate Fresh(pk: string, declared: seq<string>, sort: seq<SortField>, i: nat) {
    && i < |sort| && sort[i].field in declared
    && forall j :: 0 <= j < i && sort[j].field in declared ==> sort[j].field != sort[i].field && sort[j].field != pk
  }

  /** Slot `i` can decide between two rows that tie on the slots before it. The key breaks
      ties in ascending order anyway, so it decides something only when asked for downwards. */
  predicate Tells(d: Dialect, schema: IndexMap<FieldSchema>, pk: string, declared: seq<string>, sort: seq<SortField>,
                  i: nat, a: Row, b: Row)
    requires forall f :: f in declared ==> f in schema.at
  {
    && Fresh(pk, declared, sort, i)
    && if sort[i].field == pk then sort[i].direction == Desc
       else SlotCompare(d, schema, declared, sort[i], a, b) != Eq
  }

  ghost predicate SameOrder(d: Dialect, schema: IndexMap<FieldSchema>, pk: string, declared: seq<string>,
                            sort: seq<SortField>, other: seq<SortField>, a: Row, b: Row)
    requires forall f :: f in declared ==> f in schema.at
  {
    Then(RequestCompare(d, schema, declared, sort, a, b), PkCompare(d, pk, a, b))
    == Then(RequestCompare(d, schema, declared, other, a, b), PkCompare(d, pk, a, b))
  }

  lemma {:induction false} EqualOnEveryKept(d: Dialect, schema: IndexMap<FieldSchema>, declared: seq<string>,
                                            sort: seq<SortField>, j: nat, a: Row, b: Row)
    requires forall f :: f in declared ==> f in schema.at
    requires j < |sort| && RequestCompare(d, schema, declared, sort, a, b) == Eq
    ensures forall dir :: SlotCompare(d, schema, declared, SortField(sort[j].field, dir), a, b) == Eq
  {
    var n := |sort| - 1;
    if j < n {
      assert sort[..n][j] == sort[j];
      EqualOnEveryKept(d, schema, declared, sort[..n], j, a, b);
    }
  }

  /** Rows with different keys do not tie on slots that include the key. */
  lemma {:induction false} NoTieOnKey(d: Dialect, schema: IndexMap<FieldSchema>, pk: string, declared: seq<string>,
                                      sort: seq<SortField>, j: nat, a: Row, b: Row)
    requires UuidWhereDeclared(schema, pk, declared) && pk in declared && TwoKeys(pk, a, b)
    requires j < |sort| && sort[j].field == pk
    ensures RequestCompare(d, schema, declared, sort, a, b) != Eq
  {
    if RequestCompare(d, schema, declared, sort, a, b) == Eq {
      KeySlot(d, schema, declared, pk, SortField(pk, Asc), a, b);
      EqualOnEveryKept(d, schema, declared, sort, j, a, b);
    }
  }

  /** A slot whose field was asked for before adds nothing to a tie. */
  lemma {:induction false} RepeatedSlot(d: Dialect, schema: IndexMap<FieldSchema>, declared: seq<string>,
                                        front: seq<SortField>, s: SortField, j: nat, a: Row, b: Row)
    requires (forall f :: f in declared ==> f in schema.at) && j < |front| && front[j].field == s.field
    requires RequestCompare(d, schema, declared, front, a, b) == Eq
    ensures SlotCompare(d, schema, declared, s, a, b) == Eq
  {
    EqualOnEveryKept(d, schema, declared, front, j, a, b);
    assert SlotCompare(d, schema, declared, SortField(s.field, s.direction), a, b) == Eq;
  }

  /** A last slot that cannot decide leaves rows that tie on the others to the key. */
  lemma {:induction false} UntoldSlot(d: Dialect, schema: IndexMap<FieldSchema>, pk: string, declared: seq<string>,
                                      front: seq<SortField>, s: SortField, a: Row, b: Row)
    requires UuidWhereDeclared(schema, pk, declared) && TwoKeys(pk, a, b)
    requires !Tells(d, schema, pk, declared, front + [s], |front|, a, b)
    requires RequestCompare(d, schema, declared, front, a, b) == Eq
    ensures Then(SlotCompare(d, schema, declared, s, a, b), PkCompare(d, pk, a, b)) == PkCompare(d, pk, a, b)
  {
    if s.field in declared {
      if Fresh(pk, declared, front + [s], |front|) {
        if s.field == pk {
          KeySlot(d, schema, declared, pk, s, a, b);
        }
      } else {
        var j :| 0 <= j < |front| && (front + [s])[j].field in declared
                 && ((front + [s])[j].field == s.field || (front + [s])[j].field == pk);
        if front[j].field == s.field {
          RepeatedSlot(d, schema, declared, front, s, j, a, b);
        } else {
          NoTieOnKey(d, schema, pk, declared, front, j, a, b);
        }
      }
    }
  }

  lemma FreshInFront(pk: string, declared: seq<string>, sort: seq<SortField>, n: nat, i: nat)
    requires i < n <= |sort|
    ensures Fresh(pk, declared, sort[..n], i) == Fresh(pk, declared, sort, i)
  {
    assert forall j :: 0 <= j <= i ==> sort[..n][j] == sort[j];
  }

  /** Slots that cannot decide between two rows do not change their order. */
  lemma {:induction false} UntoldTail(d: Dialect, schema: IndexMap<FieldSchema>, pk: string, declared: seq<string>,
                                      sort: seq<SortField>, slots: nat, a: Row, b: Row)
    requires UuidWhereDeclared(schema, pk, declared) && TwoKeys(pk, a, b)
    requires forall i :: slots <= i < |sort| ==> !Tells(d, schema, pk, declared, sort, i, a, b)
    ensures SameOrder(d, schema, pk, declared, Kept(sort, slots), sort, a, b)
  {
    if |sort| > slots {
      var n := |sort| - 1;
      var front := sort[..n];
      forall i | slots <= i < n
        ensures !Tells(d, schema, pk, declared, front, i, a, b)
      {
        FreshInFront(pk, declared, sort, n, i);
        assert !Tells(d, schema, pk, declared, sort, i, a, b);
      }
      UntoldTail(d, schema, pk, declared, front, slots, a, b);
      assert Kept(sort, slots) == Kept(front, slots) && sort == front + [sort[n]];
      if RequestCompare(d, schema, declared, front, a, b) == Eq {
        UntoldSlot(d, schema, pk, declared, front, sort[n], a, b);
      }
    }
  }

  lemma {:induction false} PrefixDecides(d: Dialect, schema: IndexMap<FieldSchema>, declared: seq<string>,
                                         sort: seq<SortField>, k: nat, a: Row, b: Row)
    requires forall f :: f in declared ==> f in schema.at
    requires k <= |sort| && RequestCompare(d, schema, declared, sort[..k], a, b) != Eq
    ensures RequestCompare(d, schema, declared, sort, a, b) == RequestCompare(d, schema, declared, sort[..k], a, b)
  {
    if k == |sort| {
      assert sort[..k] == sort;
    } else {
      var front := sort[..|sort| - 1];
      assert front[..k] == sort[..k];
      PrefixDecides(d, schema, declared, front, k, a, b);
    }
  }

  /** Rows that agree on all columns but some. */
  ghost predicate AlikeBut(fields: set<string>, a: Row, b: Row) {
    forall c :: c !in fields ==> Col(a, c) == Col(b, c)
  }

  /** Slots in effect that name other fields cannot tell such rows apart. */
  lemma {:induction false} BlindToOthers(d: Dialect, schema: IndexMap<FieldSchema>, declared: seq<string>,
                                         sort: seq<SortField>, fields: set<string>, a: Row, b: Row)
    requires (forall f :: f in declared ==> f in schema.at) && AlikeBut(fields, a, b)
    requires forall j :: 0 <= j < |sort| && sort[j].field in declared ==> sort[j].field !in fields
    ensures RequestCompare(d, schema, declared, sort, a, b) == Eq
  {
    if sort != [] {
      BlindToOthers(d, schema, declared, sort[..|sort| - 1], fields, a, b);
    }
  }

  /** A fresh slot decides between rows that differ only in its field and the key, and the
      slots before it do not. */
  lemma {:induction false} FreshDecides(d: Dialect, schema: IndexMap<FieldSchema>, pk: string, declared: seq<string>,
                                        sort: seq<SortField>, i: nat, a: Row, b: Row)
    requires (forall f :: f in declared ==> f in schema.at) && Fresh(pk, declared, sort, i)
    requires AlikeBut({pk, sort[i].field}, a, b)
    ensures RequestCompare(d, schema, declared, sort[..i], a, b) == Eq
    ensures var o := SlotCompare(d, schema, declared, sort[i], a, b);
            o != Eq ==> RequestCompare(d, schema, declared, sort, a, b) == o
  {
    BlindToOthers(d, schema, declared, sort[..i], {pk, sort[i].field}, a, b);
    var upTo := sort[..i + 1];
    assert upTo[..i] == sort[..i] && upTo[i] == sort[i];
    if SlotCompare(d, schema, declared, sort[i], a, b) != Eq {
      PrefixDecides(d, schema, declared, sort, i + 1, a, b);
    }
  }

  /** A row of the table with another key and another value in one column. */
  function Variant(base: Row, pk: string, id: nat, column: string, v: Value): Row {
    base[column := v][pk := Uuid(id)]
  }

  /** Two values of one column, the first sorting before the second. */
  lemma InOrder(d: Dialect, ft: FieldType, s: SortField, u: Value, v: Value) returns (lo: Value, hi: Value)
    requires ValueKey(d, ft, u) != ValueKey(d, ft, v)
    ensures lo in {u, v} && hi in {u, v}
    ensures Oriented(s.direction, Compare(d, ValueKey(d, ft, lo), ValueKey(d, ft, hi))) == Lt
  {
    lo, hi := u, v;
    CompareIsTotalOrder(d, ValueKey(d, ft, u), ValueKey(d, ft, v), Null);
    if Oriented(s.direction, Compare(d, ValueKey(d, ft, u), ValueKey(d, ft, v))) != Lt {
      lo, hi := v, u;
    }
  }

  lemma ColumnsDecide(d: Dialect, schema: IndexMap<FieldSchema>, declared: seq<string>, s: SortField, a: Row, b: Row,
                      lo: Value, hi: Value)
    requires (forall f :: f in declared ==> f in schema.at) && s.field in declared
    requires Col(a, s.field) == lo && Col(b, s.field) == hi
    requires var ft := schema.at[s.field].fieldType;
             Oriented(s.direction, Compare(d, ValueKey(d, ft, lo), ValueKey(d, ft, hi))) == Lt
    ensures SlotCompare(d, schema, declared, s, a, b) == Lt
  {
  }

  /** Two variants of a row, the one with the greater key put first by slot `s`: by values of
      its field that sort differently, or because it asks for the key downwards. */
  lemma AgainstKey(d: Dialect, schema: IndexMap<FieldSchema>, pk: string, declared: seq<string>, s: SortField,
                   base: Row, u: Value, v: Value)
    returns (lo: Value, hi: Value)
    requires UuidWhereDeclared(schema, pk, declared) && s.field in declared
    requires if s.field == pk then s.direction == Desc
             else ValueKey(d, schema.at[s.field].fieldType, u) != ValueKey(d, schema.at[s.field].fieldType, v)
    ensures lo in {u, v} && hi in {u, v}
    ensures SlotCompare(d, schema, declared, s, Variant(base, pk, 1, s.field, lo), Variant(base, pk, 0, s.field, hi))
            == Lt
  {
    if s.field == pk {
      lo, hi := u, u;
      KeySlot(d, schema, declared, pk, s, Variant(base, pk, 1, pk, u), Variant(base, pk, 0, pk, u));
    } else {
      lo, hi := InOrder(d, schema.at[s.field].fieldType, s, u, v);
      ColumnsDecide(d, schema, declared, s, Variant(base, pk, 1, s.field, lo), Variant(base, pk, 0, s.field, hi),
                    lo, hi);
    }
  }

  lemma VariantIsTyped(schema: IndexMap<FieldSchema>, base: Row, pk: string, id: nat, column: string, v: Value)
    requires TypedRow(schema, base) && UuidKey(schema, pk)
    requires column in StoredColumns(schema) && (column != pk ==> Storable(schema.at[column], v))
    ensures TypedRow(schema, Variant(base, pk, id, column, v))
  {
  }

  lemma VariantsAreRows(schema: IndexMap<FieldSchema>, base: Row, pk: string, column: string, lo: Value, hi: Value)
    requires TypedRow(schema, base) && UuidKey(schema, pk) && column in StoredColumns(schema)
    requires column != pk ==> Storable(schema.at[column], lo) && Storable(schema.at[column], hi)
    ensures TwoRows(schema, pk, Variant(base, pk, 1, column, lo), Variant(base, pk, 0, column, hi))
    ensures AlikeBut({pk, column}, Variant(base, pk, 1, column, lo), Variant(base, pk, 0, column, hi))
  {
    VariantIsTyped(schema, base, pk, 1, column, lo);
    VariantIsTyped(schema, base, pk, 0, column, hi);
  }

  // ----- When the slots are too few ----------------------------------------

  /** The column can hold two values that sort differently. */
  ghost predicate Varies(d: Dialect, f: FieldSchema) {
    exists u, v :: Storable(f, u) && Storable(f, v) && ValueKey(d, f.fieldType, u) != ValueKey(d, f.fieldType, v)
  }

  lemma TwoValues(d: Dialect, f: FieldSchema) returns (u: Value, v: Value)
    requires Varies(d, f)
    ensures Storable(f, u) && Storable(f, v) && ValueKey(d, f.fieldType, u) != ValueKey(d, f.fieldType, v)
  {
    u, v :| Storable(f, u) && Storable(f, v) && ValueKey(d, f.fieldType, u) != ValueKey(d, f.fieldType, v);
  }

  /** Columns that hold booleans, texts, integers, times or dates vary. */
  lemma OrdinaryColumnsVary(d: Dialect, f: FieldSchema)
    requires f.fieldType in {StringType, FileType, IntegerType, BooleanType, TimestampType, DateType}
    ensures Varies(d, f)
  {
    var (u, v) := match f.fieldType
      case IntegerType => (Integer(0), Integer(1))
      case BooleanType => (Boolean(false), Boolean(true))
      case TimestampType => (Timestamp(0), Timestamp(1))
      case DateType => (Date(0), Date(1))
      case _ => (Text(""), Text("a"));
    assert Storable(f, u) && Storable(f, v) && ValueKey(d, f.fieldType, u) != ValueKey(d, f.fieldType, v);
  }

  /** Slot `i` orders some two rows of a table that tie on the slots before it. */
  ghost predicate Matters(d: Dialect, schema: IndexMap<FieldSchema>, pk: string, declared: seq<string>,
                          sort: seq<SortField>, i: nat)
    requires forall f :: f in declared ==> f in schema.at
  {
    && Fresh(pk, declared, sort, i)
    && if sort[i].field == pk then sort[i].direction == Desc
       else sort[i].field in StoredColumns(schema) && Varies(d, schema.at[sort[i].field])
  }

  /** No slot from `slots` on can decide anything. */
  ghost predicate Idle(d: Dialect, schema: IndexMap<FieldSchema>, pk: string, declared: seq<string>,
                       sort: seq<SortField>, slots: nat)
    requires forall f :: f in declared ==> f in schema.at
  {
    forall i :: slots <= i < |sort| ==> !Matters(d, schema, pk, declared, sort, i)
  }

  /** Two rows that one table can hold: typed, with different keys. */
  ghost predicate TwoRows(schema: IndexMap<FieldSchema>, pk: string, a: Row, b: Row) {
    && TypedRow(schema, a) && TypedRow(schema, b)
    && Col(a, pk) != Col(b, pk)
  }

  /** Among typed rows, a column that does not vary compares equal. */
  lemma ConstantSlot(d: Dialect, schema: IndexMap<FieldSchema>, declared: seq<string>, s: SortField, a: Row, b: Row)
    requires (forall f :: f in declared ==> f in schema.at) && TypedRow(schema, a) && TypedRow(schema, b)
    requires s.field in declared && !(s.field in StoredColumns(schema) && Varies(d, schema.at[s.field]))
    ensures SlotCompare(d, schema, declared, s, a, b) == Eq
  {
    var f := s.field;
    if f in StoredColumns(schema) {
      assert Storable(schema.at[f], a[f]) && Storable(schema.at[f], b[f]);
    }
    CompareIsTotalOrder(d, ValueKey(d, schema.at[f].fieldType, Col(a, f)),
                        ValueKey(d, schema.at[f].fieldType, Col(b, f)), Null);
  }

  lemma IdleTail(d: Dialect, schema: IndexMap<FieldSchema>, pk: string, declared: seq<string>, sort: seq<SortField>,
                 slots: nat, a: Row, b: Row)
    requires (forall f :: f in declared ==> f in schema.at) && UuidKey(schema, pk)
    requires TwoRows(schema, pk, a, b) && Idle(d, schema, pk, declared, sort, slots)
    ensures SameOrder(d, schema, pk, declared, Kept(sort, slots), sort, a, b)
  {
    KeyIsUuid(schema, pk, a);
    KeyIsUuid(schema, pk, b);
    forall i | slots <= i < |sort|
      ensures !Tells(d, schema, pk, declared, sort, i, a, b)
    {
      assert !Matters(d, schema, pk, declared, sort, i);
      if Fresh(pk, declared, sort, i) && sort[i].field != pk {
        ConstantSlot(d, schema, declared, sort[i], a, b);
      }
    }
    UntoldTail(d, schema, pk, declared, sort, slots, a, b);
  }

  /** A lost slot that matters orders some two rows of a table against the key. */
  lemma LostFieldChangesOrder(d: Dialect, schema: IndexMap<FieldSchema>, pk: string, declared: seq<string>,
                              sort: seq<SortField>, i: nat, base: Row)
    returns (a: Row, b: Row)
    requires (forall f :: f in declared ==> f in schema.at) && UuidKey(schema, pk) && TypedRow(schema, base)
    requires |declared| <= i && Matters(d, schema, pk, declared, sort, i)
    ensures TwoRows(schema, pk, a, b) && !SameOrder(d, schema, pk, declared, Kept(sort, |declared|), sort, a, b)
  {
    var f := sort[i].field;
    var u, v := Null, Null;
    if f != pk {
      u, v := TwoValues(d, schema.at[f]);
    }
    var lo, hi := AgainstKey(d, schema, pk, declared, sort[i], base, u, v);
    a, b := Variant(base, pk, 1, f, lo), Variant(base, pk, 0, f, hi);
    VariantsAreRows(schema, base, pk, f, lo, hi);
    FreshDecides(d, schema, pk, declared, sort, i, a, b);
    KeptTies(d, schema, declared, sort, |declared|, i, a, b);
  }

  lemma {:induction false} KeptTies(d: Dialect, schema: IndexMap<FieldSchema>, declared: seq<string>,
                                    sort: seq<SortField>, slots: nat, i: nat, a: Row, b: Row)
    requires (forall f :: f in declared ==> f in schema.at) && slots <= i < |sort|
    requires RequestCompare(d, schema, declared, sort[..i], a, b) == Eq
    ensures RequestCompare(d, schema, declared, Kept(sort, slots), a, b) == Eq
  {
    assert sort[..i][..slots] == sort[..slots] == Kept(sort, slots);
    if RequestCompare(d, schema, declared, sort[..slots], a, b) != Eq {
      PrefixDecides(d, schema, declared, sort[..i], slots, a, b);
    }
  }

  /** Main result, exactly when a request is honoured in full: the query orders all rows that
      one table can hold as the whole request does if and only if no slot past the declared
      count matters, or the table can hold no row at all. */
  lemma RequestHonouredExactly(d: Dialect, schema: IndexMap<FieldSchema>, pk: string, declared: seq<string>,
                               sort: seq<SortField>)
    requires (forall f :: f in declared ==> f in schema.at) && UuidKey(schema, pk)
    ensures (forall a, b :: TwoRows(schema, pk, a, b) ==>
               SameOrder(d, schema, pk, declared, Kept(sort, |declared|), sort, a, b))
            <==> Idle(d, schema, pk, declared, sort, |declared|) || !exists row :: TypedRow(schema, row)
  {
    if i :| |declared| <= i < |sort| && Matters(d, schema, pk, declared, sort, i) {
      if base :| TypedRow(schema, base) {
        var a, b := LostFieldChangesOrder(d, schema, pk, declared, sort, i, base);
      }
    } else {
      forall a, b | TwoRows(schema, pk, a, b)
        ensures SameOrder(d, schema, pk, declared, Kept(sort, |declared|), sort, a, b)
      {
        IdleTail(d, schema, pk, declared, sort, |declared|, a, b);
      }
    }
  }

  /** A request that names no field twice always fits. */
  lemma DistinctRequestsFit(declared: seq<string>, sort: seq<SortField>)
    requires forall i :: 0 <= i < |sort| ==> sort[i].field in declared
    requires forall i, j :: 0 <= i < j < |sort| ==> sort[i].field != sort[j].field
    ensures Kept(sort, |declared|) == sort
  {
    var names := seq(|sort|, i requires 0 <= i < |sort| => sort[i].field);
    assert Elements(names) <= Elements(declared);
    DistinctLength(names, Elements(declared));
    SetOfSeqIsSmall(declared);
  }

  lemma {:induction false} SetOfSeqIsSmall(s: seq<string>)
    ensures |Elements(s)| <= |s|
  {
    if s != [] {
      var n := |s| - 1;
      SetOfSeqIsSmall(s[..n]);
      assert Elements(s) == Elements(s[..n]) + {s[n]};
    }
  }
}
