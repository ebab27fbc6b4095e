/** The resource validator, the points where the code generator can fail, and what the first
    guarantees about the second. */
module Validation {
  import opened Prelude
  import opened Strings
  import opened Http
  import opened Values
  import opened Schema
  import Mutations
  import ListQuery
  import Store

  /** The JSON kind of a declared default. */
  datatype DefaultKind = StringDefault | BooleanDefault | OtherDefault

  datatype FieldDef = FieldDef(schema: FieldSchema, unique: bool, reference: Option<string>, kind: DefaultKind)

  datatype EndpointDef = EndpointDef(
    verb: Option<HttpMethod>, path: Option<string>,
    input: seq<string>, filters: seq<string>, search: seq<string>, sort: seq<string>, softDelete: bool)

  datatype Definition = Definition(fields: IndexMap<FieldDef>, endpoints: IndexMap<EndpointDef>)

  datatype Use = Input | Filter | Search | Sort

  datatype Problem =
    | NoPrimary
    | ManyPrimaries
    | RefNotUuid(field: string)
    | PrimaryNotSupplied(field: string)
    | TransientPrimary(field: string)
    | TransientGenerated(field: string)
    | TransientRef(field: string)
    | TransientUnique(field: string)
    | TransientDefault(field: string)
    | TransientUnreachable(field: string)
    | NoMethod(action: string)
    | NoPath(action: string)
    | UnknownField(action: string, use: Use, field: string)
    | NoDeletedAt(action: string)

  // ----- What each problem means --------------------------------------------

  function Listed(e: EndpointDef, use: Use): seq<string> {
    match use
    case Input => e.input
    case Filter => e.filters
    case Search => e.search
    case Sort => e.sort
  }

  predicate IsPrimary(rd: Definition, f: string) {
    f in rd.fields.at && rd.fields.at[f].schema.primary
  }

  ghost predicate Uses(e: EndpointDef, use: Use, f: string) {
    || (use == Input && f in e.input)
    || (use == Filter && f in e.filters)
    || (use == Search && f in e.search)
    || (use == Sort && f in e.sort)
  }

  ghost predicate Violates(rd: Definition, p: Problem) {
    match p
    case NoPrimary => forall f :: !IsPrimary(rd, f)
    case ManyPrimaries => exists f, g :: f != g && IsPrimary(rd, f) && IsPrimary(rd, g)
    case RefNotUuid(f) =>
      f in rd.fields.at && rd.fields.at[f].reference.Some? && rd.fields.at[f].schema.fieldType != UuidType
    case PrimaryNotSupplied(f) =>
      IsPrimary(rd, f) && !rd.fields.at[f].schema.generated && !rd.fields.at[f].schema.required
    case TransientPrimary(f) => IsTransient(rd, f) && rd.fields.at[f].schema.primary
    case TransientGenerated(f) => IsTransient(rd, f) && rd.fields.at[f].schema.generated
    case TransientRef(f) => IsTransient(rd, f) && rd.fields.at[f].reference.Some?
    case TransientUnique(f) => IsTransient(rd, f) && rd.fields.at[f].unique
    case TransientDefault(f) => IsTransient(rd, f) && rd.fields.at[f].schema.default.Some?
    case TransientUnreachable(f) => IsTransient(rd, f) && forall a :: !InputOf(rd, a, f)
    case NoMethod(a) => a in rd.endpoints.at && rd.endpoints.at[a].verb.None?
    case NoPath(a) => a in rd.endpoints.at && rd.endpoints.at[a].path.None?
    case UnknownField(a, use, f) => a in rd.endpoints.at && Uses(rd.endpoints.at[a], use, f) && f !in rd.fields.at
    case NoDeletedAt(a) => a in rd.endpoints.at && rd.endpoints.at[a].softDelete && "deleted_at" !in rd.fields.at
  }

  predicate IsTransient(rd: Definition, f: string) {
    f in rd.fields.at && rd.fields.at[f].schema.transient
  }

  ghost predicate Validated(rd: Definition) {
    forall p :: !Violates(rd, p)
  }

  /** A field the validator has nothing against. */
  ghost predicate SoundField(rd: Definition, f: string)
    requires f in rd.fields.at
  {
    var d := rd.fields.at[f];
    && (d.reference.Some? ==> d.schema.fieldType == UuidType)
    && (d.schema.primary ==> d.schema.generated || d.schema.required)
    && (d.schema.transient ==>
          && !d.schema.primary && !d.schema.generated && d.reference.None? && !d.unique && d.schema.default.None?
          && exists a :: a in rd.endpoints.at && f in rd.endpoints.at[a].input)
  }

  /** An endpoint the validator has nothing against. */
  ghost predicate SoundEndpoint(rd: Definition, e: EndpointDef) {
    && e.verb.Some? && e.path.Some?
    && (forall f :: f in e.input + e.filters + e.search + e.sort ==> f in rd.fields.at)
    && (e.softDelete ==> "deleted_at" in rd.fields.at)
  }

  ghost predicate OnePrimary(rd: Definition) {
    exists pk :: IsPrimary(rd, pk) && forall f :: IsPrimary(rd, f) ==> f == pk
  }

  /** Nothing is violated that is about this name. */
  ghost predicate NothingAbout(rd: Definition, parts: set<Part>, name: string) {
    forall p :: PartOf(p) in parts && Subject(p) == name ==> !Violates(rd, p)
  }

  lemma SoundFromNothing(rd: Definition, f: string)
    requires f in rd.fields.at && NothingAbout(rd, {OfField, OfReach}, f)
    ensures SoundField(rd, f)
  {
    assert !Violates(rd, RefNotUuid(f)) && !Violates(rd, PrimaryNotSupplied(f));
    assert !Violates(rd, TransientPrimary(f)) && !Violates(rd, TransientGenerated(f));
    assert !Violates(rd, TransientRef(f)) && !Violates(rd, TransientUnique(f));
    assert !Violates(rd, TransientDefault(f)) && !Violates(rd, TransientUnreachable(f));
    if rd.fields.at[f].schema.transient {
      var a :| InputOf(rd, a, f);
      assert a in rd.endpoints.at && f in rd.endpoints.at[a].input;
    }
  }

  lemma SoundFieldExactly(rd: Definition, f: string)
    requires f in rd.fields.at
    ensures SoundField(rd, f) <==> NothingAbout(rd, {OfField, OfReach}, f)
  {
    if NothingAbout(rd, {OfField, OfReach}, f) {
      SoundFromNothing(rd, f);
    } else if SoundField(rd, f) && rd.fields.at[f].schema.transient {
      var a :| a in rd.endpoints.at && f in rd.endpoints.at[a].input;
      assert InputOf(rd, a, f);
    }
  }

  lemma SoundEndpointFromNothing(rd: Definition, a: string)
    requires a in rd.endpoints.at && NothingAbout(rd, {OfEndpoint}, a)
    ensures SoundEndpoint(rd, rd.endpoints.at[a])
  {
    var e := rd.endpoints.at[a];
    assert !Violates(rd, NoMethod(a)) && !Violates(rd, NoPath(a)) && !Violates(rd, NoDeletedAt(a));
    forall f | f in e.input + e.filters + e.search + e.sort
      ensures f in rd.fields.at
    {
      assert Uses(e, Input, f) || Uses(e, Filter, f) || Uses(e, Search, f) || Uses(e, Sort, f);
      KnownFromNothing(rd, a, f);
    }
  }

  lemma KnownFromNothing(rd: Definition, a: string, f: string)
    requires a in rd.endpoints.at && NothingAbout(rd, {OfEndpoint}, a)
    requires exists use :: Uses(rd.endpoints.at[a], use, f)
    ensures f in rd.fields.at
  {
    var use :| Uses(rd.endpoints.at[a], use, f);
    assert !Violates(rd, UnknownField(a, use, f));
  }

  lemma SoundEndpointExactly(rd: Definition, a: string)
    requires a in rd.endpoints.at
    ensures SoundEndpoint(rd, rd.endpoints.at[a]) <==> NothingAbout(rd, {OfEndpoint}, a)
  {
    if NothingAbout(rd, {OfEndpoint}, a) {
      SoundEndpointFromNothing(rd, a);
    }
  }

  /** The validator accepts exactly resources with one primary key, sound fields and sound
      endpoints. */
  lemma AcceptsExactly(rd: Definition)
    ensures Validated(rd) <==>
            && OnePrimary(rd)
            && (forall f :: f in rd.fields.at ==> SoundField(rd, f))
            && (forall a :: a in rd.endpoints.at ==> SoundEndpoint(rd, rd.endpoints.at[a]))
  {
    forall f | f in rd.fields.at {
      SoundFieldExactly(rd, f);
    }
    forall a | a in rd.endpoints.at {
      SoundEndpointExactly(rd, a);
    }
    if Validated(rd) {
      assert !Violates(rd, NoPrimary) && !Violates(rd, ManyPrimaries);
    }
    forall p | Violates(rd, p)
      ensures PartOf(p) == OfEndpoint ==> Subject(p) in rd.endpoints.at
      ensures PartOf(p) in {OfField, OfReach} ==> Subject(p) in rd.fields.at
    {
    }
  }

  // ----- The validator ------------------------------------------------------

  datatype Part = OfTable | OfField | OfReach | OfEndpoint

  function PartOf(p: Problem): Part {
    match p
    case NoPrimary => OfTable
    case ManyPrimaries => OfTable
    case TransientUnreachable(_) => OfReach
    case NoMethod(_) => OfEndpoint
    case NoPath(_) => OfEndpoint
    case UnknownField(_, _, _) => OfEndpoint
    case NoDeletedAt(_) => OfEndpoint
    case _ => OfField
  }

  /** The field or action a problem is about. */
  function Subject(p: Problem): string {
    match p
    case NoPrimary => ""
    case ManyPrimaries => ""
    case RefNotUuid(f) => f
    case PrimaryNotSupplied(f) => f
    case TransientPrimary(f) => f
    case TransientGenerated(f) => f
    case TransientRef(f) => f
    case TransientUnique(f) => f
    case TransientDefault(f) => f
    case TransientUnreachable(f) => f
    case NoMethod(a) => a
    case NoPath(a) => a
    case UnknownField(a, _, _) => a
    case NoDeletedAt(a) => a
  }

  /** A violation of one part, about one of the first names. */
  ghost predicate Among(rd: Definition, part: Part, names: seq<string>, p: Problem) {
    PartOf(p) == part && Subject(p) in names && Violates(rd, p)
  }

  method ValidateField(rd: Definition, f: string) returns (errors: seq<Problem>)
    requires f in rd.fields.at
    ensures forall p :: p in errors <==> Among(rd, OfField, [f], p)
  {
    var d := rd.fields.at[f];
    errors := [];
    if d.reference.Some? && d.schema.fieldType != UuidType {
      errors := errors + [RefNotUuid(f)];
    }
    if d.schema.primary && !d.schema.generated && !d.schema.required {
      errors := errors + [PrimaryNotSupplied(f)];
    }
    if d.schema.transient {
      var more := ValidateTransient(f, d);
      errors := errors + more;
    }
  }

  method ValidateTransient(f: string, d: FieldDef) returns (errors: seq<Problem>)
    ensures forall p :: p in errors <==>
              || (p == TransientPrimary(f) && d.schema.primary)
              || (p == TransientGenerated(f) && d.schema.generated)
              || (p == TransientRef(f) && d.reference.Some?)
              || (p == TransientUnique(f) && d.unique)
              || (p == TransientDefault(f) && d.schema.default.Some?)
  {
    errors := [];
    if d.schema.primary {
      errors := errors + [TransientPrimary(f)];
    }
    if d.schema.generated {
      errors := errors + [TransientGenerated(f)];
    }
    if d.reference.Some? {
      errors := errors + [TransientRef(f)];
    }
    if d.unique {
      errors := errors + [TransientUnique(f)];
    }
    if d.schema.default.Some? {
      errors := errors + [TransientDefault(f)];
    }
  }

  method ValidateFields(rd: Definition) returns (errors: seq<Problem>)
    ensures forall p :: p in errors <==> Among(rd, OfField, rd.fields.keys, p)
  {
    errors := [];
    var names := rd.fields.keys;
    for i := 0 to |names|
      invariant forall p :: p in errors <==> Among(rd, OfField, names[..i], p)
    {
      assert names[i] in Elements(names);
      var more := ValidateField(rd, names[i]);
      forall p
        ensures p in errors + more <==> Among(rd, OfField, names[..i + 1], p)
      {
        assert names[..i + 1] == names[..i] + [names[i]];
      }
      errors := errors + more;
    }
    assert names[..|names|] == names;
  }

  method ValidatePrimary(rd: Definition) returns (errors: seq<Problem>)
    ensures forall p :: p in errors <==> PartOf(p) == OfTable && Violates(rd, p)
  {
    var names := rd.fields.keys;
    var count := 0;
    ghost var first := "";
    for i := 0 to |names|
      invariant count == 0 ==> forall j :: 0 <= j < i ==> !IsPrimary(rd, names[j])
      invariant count >= 1 ==> first in names[..i] && IsPrimary(rd, first)
      invariant count == 1 ==> forall j :: 0 <= j < i && IsPrimary(rd, names[j]) ==> names[j] == first
      invariant count > 1 ==> Violates(rd, ManyPrimaries)
    {
      assert names[i] in Elements(names);
      if rd.fields.at[names[i]].schema.primary {
        if count == 0 {
          first := names[i];
        } else if count == 1 {
          assert first != names[i] && IsPrimary(rd, first) && IsPrimary(rd, names[i]);
        }
        count := count + 1;
      }
      assert names[..i + 1] == names[..i] + [names[i]];
    }
    EveryFieldListed(rd);
    errors := [];
    if count == 0 {
      errors := [NoPrimary];
    } else if count > 1 {
      errors := [ManyPrimaries];
    }
  }

  lemma EveryFieldListed(rd: Definition)
    ensures forall f :: IsPrimary(rd, f) ==> exists j :: 0 <= j < |rd.fields.keys| && rd.fields.keys[j] == f
  {
    forall f | IsPrimary(rd, f)
      ensures exists j :: 0 <= j < |rd.fields.keys| && rd.fields.keys[j] == f
    {
      assert f in Elements(rd.fields.keys);
    }
  }

  method ValidateReach(rd: Definition) returns (errors: seq<Problem>)
    ensures forall p :: p in errors <==> Among(rd, OfReach, rd.fields.keys, p)
  {
    errors := [];
    var referenced := ReferencedInputs(rd);
    var names := rd.fields.keys;
    for i := 0 to |names|
      invariant forall p :: p in errors <==> Among(rd, OfReach, names[..i], p)
    {
      assert names[i] in Elements(names);
      var more := [];
      if rd.fields.at[names[i]].schema.transient && names[i] !in referenced {
        more := [TransientUnreachable(names[i])];
      }
      forall p
        ensures p in errors + more <==> Among(rd, OfReach, names[..i + 1], p)
      {
        assert names[..i + 1] == names[..i] + [names[i]];
      }
      errors := errors + more;
    }
    assert names[..|names|] == names;
  }

  method ReferencedInputs(rd: Definition) returns (referenced: set<string>)
    ensures forall f :: f in referenced <==> exists a :: InputOf(rd, a, f)
  {
    referenced := {};
    var actions := rd.endpoints.keys;
    for i := 0 to |actions|
      invariant forall f :: f in referenced <==> exists j :: 0 <= j < i && InputOf(rd, actions[j], f)
    {
      assert actions[i] in Elements(actions);
      referenced := referenced + set f | f in rd.endpoints.at[actions[i]].input;
    }
    forall a, f | InputOf(rd, a, f)
      ensures exists j :: 0 <= j < |actions| && InputOf(rd, actions[j], f)
    {
      assert a in Elements(actions);
      var j :| 0 <= j < |actions| && actions[j] == a;
    }
  }

  ghost predicate InputOf(rd: Definition, a: string, f: string) {
    a in rd.endpoints.at && f in rd.endpoints.at[a].input
  }

  method ValidateUse(rd: Definition, a: string, use: Use) returns (errors: seq<Problem>)
    requires a in rd.endpoints.at
    ensures forall p :: p in errors <==> p.UnknownField? && p.action == a && p.use == use && Violates(rd, p)
  {
    errors := [];
    var names := Listed(rd.endpoints.at[a], use);
    for i := 0 to |names|
      invariant forall p :: p in errors <==>
                  p.UnknownField? && p.action == a && p.use == use && p.field in names[..i] && Violates(rd, p)
    {
      assert names[..i + 1] == names[..i] + [names[i]];
      if names[i] !in rd.fields.at {
        errors := errors + [UnknownField(a, use, names[i])];
      }
    }
    assert names[..|names|] == names;
  }

  method ValidateEndpoint(rd: Definition, a: string) returns (errors: seq<Problem>)
    requires a in rd.endpoints.at
    ensures forall p :: p in errors <==> Among(rd, OfEndpoint, [a], p)
  {
    var e := rd.endpoints.at[a];
    errors := [];
    if e.verb.None? {
      errors := errors + [NoMethod(a)];
    }
    if e.path.None? {
      errors := errors + [NoPath(a)];
    }
    var inputs := ValidateUse(rd, a, Input);
    var filters := ValidateUse(rd, a, Filter);
    var search := ValidateUse(rd, a, Search);
    var sort := ValidateUse(rd, a, Sort);
    errors := errors + inputs + filters + search + sort;
    if e.softDelete && "deleted_at" !in rd.fields.at {
      errors := errors + [NoDeletedAt(a)];
    }
  }

  method ValidateEndpoints(rd: Definition) returns (errors: seq<Problem>)
    ensures forall p :: p in errors <==> Among(rd, OfEndpoint, rd.endpoints.keys, p)
  {
    errors := [];
    var actions := rd.endpoints.keys;
    for i := 0 to |actions|
      invariant forall p :: p in errors <==> Among(rd, OfEndpoint, actions[..i], p)
    {
      assert actions[i] in Elements(actions);
      var more := ValidateEndpoint(rd, actions[i]);
      forall p
        ensures p in errors + more <==> Among(rd, OfEndpoint, actions[..i + 1], p)
      {
        assert actions[..i + 1] == actions[..i] + [actions[i]];
      }
      errors := errors + more;
    }
    assert actions[..|actions|] == actions;
  }

  /** Reports exactly the violations. */
  method ValidateResource(rd: Definition) returns (errors: seq<Problem>)
    ensures forall p :: p in errors <==> Violates(rd, p)
    ensures errors == [] <==> Validated(rd)
  {
    var table := ValidatePrimary(rd);
    var fields := ValidateFields(rd);
    var reach := ValidateReach(rd);
    var endpoints := ValidateEndpoints(rd);
    errors := table + fields + reach + endpoints;
    forall p
      ensures p in errors <==> Violates(rd, p)
    {
      SubjectListed(rd, p);
    }
    assert errors != [] ==> errors[0] in errors;
  }

  lemma SubjectListed(rd: Definition, p: Problem)
    ensures Violates(rd, p) && PartOf(p) != OfTable
            ==> Among(rd, PartOf(p), if PartOf(p) == OfEndpoint then rd.endpoints.keys else rd.fields.keys, p)
  {
    if !Violates(rd, p) {
    } else if PartOf(p) == OfEndpoint {
      assert Subject(p) in Elements(rd.endpoints.keys);
    } else if PartOf(p) != OfTable {
      assert Subject(p) in Elements(rd.fields.keys);
    }
  }

  // ----- The resource as the other modules see it ---------------------------

  function SchemaOf(rd: Definition): IndexMap<FieldSchema> {
    var m := RawIndexMap(rd.fields.keys, map f | f in rd.fields.at :: rd.fields.at[f].schema);
    assert m.at.Keys == rd.fields.at.Keys;
    m
  }

  predicate SoftDeletes(rd: Definition) {
    exists a :: a in rd.endpoints.at && rd.endpoints.at[a].softDelete
  }

  /** The resource as the other modules see it. */
  function ResourceOf(rd: Definition): Resource {
    Resource(SchemaOf(rd), SoftDeletes(rd))
  }

  function QueryPart(e: EndpointDef): EndpointSpec {
    EndpointSpec(e.filters, e.search, e.sort)
  }

  // ----- The generator ------------------------------------------------------

  /** A call that panics on something not there, or an error that names a field. */
  datatype Failure = NoMethodSet | NoPathSet | Unknown(field: string) | BadDefault(field: string)

  /** How a default is spliced into the generated code. */
  datatype DefaultExpr = StringLiteral | BooleanLiteral | ParsedAtRunTime

  /** The expression a stored column's variable is initialised with on insert. */
  datatype InsertExpr =
    | Drawn
    | OrDefault(fallback: DefaultExpr, wrapped: bool)
    | OrNull
    | OrRefused

  datatype GeneratedModule = GeneratedModule(
    helpers: seq<ListQuery.ListHelper>,
    initialisers: seq<InsertExpr>,
    insert: Mutations.InsertCode,
    update: Mutations.UpdateCode)

  predicate Contains(s: string, part: string) {
    exists i :: 0 <= i <= |s| && StartsWith(s[i..], part)
  }

  /** The method of every endpoint is read, and the path of every GET. */
  function RouteFailure(e: EndpointDef): Option<Failure> {
    if e.verb.None? then Some(NoMethodSet)
    else if e.verb.value == Get && e.path.None? then Some(NoPathSet)
    else None
  }

  predicate IsCollection(e: EndpointDef) {
    e.verb == Some(Get) && e.path.Some? && !Contains(e.path.value, ":id")
  }

  predicate ActionsKnown(rd: Definition, actions: seq<string>) {
    forall a :: a in actions ==> a in rd.endpoints.at
  }

  function FirstRouteFailure(rd: Definition, actions: seq<string>): Option<Failure>
    requires ActionsKnown(rd, actions)
  {
    if actions == [] then None
    else
      var n := |actions| - 1;
      var before := FirstRouteFailure(rd, actions[..n]);
      if before.Some? then before else RouteFailure(rd.endpoints.at[actions[n]])
  }

  function ListHelperOf(rd: Definition, e: EndpointDef): Result<ListQuery.ListHelper, Failure> {
    var r, ep := ResourceOf(rd), QueryPart(e);
    ListQuery.KnownExactly(r, ep);
    match ListQuery.UnknownField(r, ep)
    case Some(f) => Err(Unknown(f))
    case None => Ok(ListQuery.HelperFor(r, ep))
  }

  /** The helpers of the collection endpoints, or the first failure among them. */
  function ListHelpers(rd: Definition, actions: seq<string>): Result<seq<ListQuery.ListHelper>, Failure>
    requires ActionsKnown(rd, actions)
  {
    if actions == [] then Ok([])
    else
      var n := |actions| - 1;
      var e := rd.endpoints.at[actions[n]];
      match ListHelpers(rd, actions[..n])
      case Err(f) => Err(f)
      case Ok(front) =>
        if !IsCollection(e) then Ok(front)
        else
          match ListHelperOf(rd, e)
          case Err(f) => Err(f)
          case Ok(h) => Ok(front + [h])
  }

  /** String-like defaults must be JSON strings, boolean ones JSON booleans; all others are
      parsed when the insert runs. */
  function DefaultExpression(f: string, d: FieldDef): Result<DefaultExpr, Failure> {
    match d.schema.fieldType
    case StringType => if d.kind == StringDefault then Ok(StringLiteral) else Err(BadDefault(f))
    case EnumType => if d.kind == StringDefault then Ok(StringLiteral) else Err(BadDefault(f))
    case FileType => if d.kind == StringDefault then Ok(StringLiteral) else Err(BadDefault(f))
    case BooleanType => if d.kind == BooleanDefault then Ok(BooleanLiteral) else Err(BadDefault(f))
    case _ => Ok(ParsedAtRunTime)
  }

  function InsertDeclaration(f: string, d: FieldDef): Result<InsertExpr, Failure> {
    if d.schema.generated then Ok(Drawn)
    else if d.schema.default.Some? then
      match DefaultExpression(f, d)
      case Err(e) => Err(e)
      case Ok(fallback) => Ok(OrDefault(fallback, d.schema.IsOptional()))
    else Ok(if d.schema.IsOptional() then OrNull else OrRefused)
  }

  predicate FieldsListed(rd: Definition, names: seq<string>) {
    forall f :: f in names ==> f in rd.fields.at
  }

  /** The initialisers of the stored columns, or the first failure among them. */
  function Initialisers(rd: Definition, names: seq<string>): Result<seq<InsertExpr>, Failure>
    requires FieldsListed(rd, names)
  {
    if names == [] then Ok([])
    else
      var n := |names| - 1;
      var d := rd.fields.at[names[n]];
      match Initialisers(rd, names[..n])
      case Err(e) => Err(e)
      case Ok(front) =>
        if d.schema.transient then Ok(front)
        else
          match InsertDeclaration(names[n], d)
          case Err(e) => Err(e)
          case Ok(x) => Ok(front + [x])
  }

  lemma EverythingKnown(rd: Definition)
    ensures ActionsKnown(rd, rd.endpoints.keys) && FieldsListed(rd, rd.fields.keys)
    ensures forall a :: a in rd.endpoints.at ==> a in rd.endpoints.keys
    ensures forall f :: f in rd.fields.at ==> f in rd.fields.keys
  {
    assert forall a :: a in rd.endpoints.keys <==> a in Elements(rd.endpoints.keys);
    assert forall f :: f in rd.fields.keys <==> f in Elements(rd.fields.keys);
  }

  /** The module of a resource: routes first, then list helpers, then the insert. */
  function Generate(rd: Definition): Result<GeneratedModule, Failure> {
    EverythingKnown(rd);
    var r := ResourceOf(rd);
    match FirstRouteFailure(rd, rd.endpoints.keys)
    case Some(f) => Err(f)
    case None =>
      match ListHelpers(rd, rd.endpoints.keys)
      case Err(f) => Err(f)
      case Ok(helpers) =>
        match Initialisers(rd, rd.fields.keys)
        case Err(f) => Err(f)
        case Ok(xs) => Ok(GeneratedModule(helpers, xs, Mutations.InsertFor(r), Mutations.UpdateFor(r)))
  }

  lemma KnownInFront(rd: Definition, names: seq<string>, i: nat)
    requires i <= |names|
    ensures ActionsKnown(rd, names) ==> ActionsKnown(rd, names[..i])
    ensures FieldsListed(rd, names) ==> FieldsListed(rd, names[..i])
  {
    assert forall n :: n in names[..i] ==> n in names;
  }

  method CheckRoutes(rd: Definition, actions: seq<string>) returns (failure: Option<Failure>)
    requires ActionsKnown(rd, actions)
    ensures failure == FirstRouteFailure(rd, actions)
  {
    for i := 0 to |actions|
      invariant ActionsKnown(rd, actions[..i]) && FirstRouteFailure(rd, actions[..i]) == None
    {
      KnownInFront(rd, actions, i + 1);
      assert actions[..i + 1][..i] == actions[..i];
      var e := rd.endpoints.at[actions[i]];
      if e.verb.None? {
        FailureStays(rd, actions, i + 1);
        return Some(NoMethodSet);
      }
      if e.verb.value == Get && e.path.None? {
        FailureStays(rd, actions, i + 1);
        return Some(NoPathSet);
      }
    }
    assert actions[..|actions|] == actions;
    failure := None;
  }

  lemma {:induction false} FailureStays(rd: Definition, actions: seq<string>, i: nat)
    requires ActionsKnown(rd, actions) && i <= |actions|
    ensures ActionsKnown(rd, actions[..i])
    ensures FirstRouteFailure(rd, actions[..i]).Some?
            ==> FirstRouteFailure(rd, actions) == FirstRouteFailure(rd, actions[..i])
  {
    KnownInFront(rd, actions, i);
    if i == |actions| {
      assert actions[..i] == actions;
    } else {
      var front := actions[..|actions| - 1];
      KnownInFront(rd, actions, |actions| - 1);
      assert front[..i] == actions[..i];
      FailureStays(rd, front, i);
    }
  }

  method EmitListHelper(rd: Definition, e: EndpointDef) returns (helper: Result<ListQuery.ListHelper, Failure>)
    ensures helper == ListHelperOf(rd, e)
  {
    ListQuery.KnownExactly(ResourceOf(rd), QueryPart(e));
    var emitted := ListQuery.GenerateListHelper(ResourceOf(rd), QueryPart(e));
    if emitted.Err? {
      return Err(Unknown(emitted.error));
    }
    return Ok(emitted.value);
  }

  method EmitListHelpers(rd: Definition, actions: seq<string>)
    returns (helpers: Result<seq<ListQuery.ListHelper>, Failure>)
    requires ActionsKnown(rd, actions)
    ensures helpers == ListHelpers(rd, actions)
  {
    var out: seq<ListQuery.ListHelper> := [];
    for i := 0 to |actions|
      invariant ActionsKnown(rd, actions[..i]) && ListHelpers(rd, actions[..i]) == Ok(out)
    {
      KnownInFront(rd, actions, i + 1);
      assert actions[..i + 1][..i] == actions[..i];
      var e := rd.endpoints.at[actions[i]];
      if IsCollection(e) {
        var helper := EmitListHelper(rd, e);
        if helper.Err? {
          HelperFailureStays(rd, actions, i + 1);
          return Err(helper.error);
        }
        out := out + [helper.value];
      }
    }
    assert actions[..|actions|] == actions;
    return Ok(out);
  }

  lemma {:induction false} HelperFailureStays(rd: Definition, actions: seq<string>, i: nat)
    requires ActionsKnown(rd, actions) && i <= |actions|
    ensures ActionsKnown(rd, actions[..i])
    ensures ListHelpers(rd, actions[..i]).Err? ==> ListHelpers(rd, actions) == ListHelpers(rd, actions[..i])
  {
    KnownInFront(rd, actions, i);
    if i == |actions| {
      assert actions[..i] == actions;
    } else {
      var front := actions[..|actions| - 1];
      KnownInFront(rd, actions, |actions| - 1);
      assert front[..i] == actions[..i];
      HelperFailureStays(rd, front, i);
    }
  }

  method EmitInitialisers(rd: Definition, names: seq<string>) returns (initialisers: Result<seq<InsertExpr>, Failure>)
    requires FieldsListed(rd, names)
    ensures initialisers == Initialisers(rd, names)
  {
    var out: seq<InsertExpr> := [];
    for i := 0 to |names|
      invariant FieldsListed(rd, names[..i]) && Initialisers(rd, names[..i]) == Ok(out)
    {
      KnownInFront(rd, names, i + 1);
      assert names[..i + 1][..i] == names[..i];
      var d := rd.fields.at[names[i]];
      if !d.schema.transient {
        var x := InsertDeclaration(names[i], d);
        if x.Err? {
          InitialiserFailureStays(rd, names, i + 1);
          return Err(x.error);
        }
        out := out + [x.value];
      }
    }
    assert names[..|names|] == names;
    return Ok(out);
  }

  lemma {:induction false} InitialiserFailureStays(rd: Definition, names: seq<string>, i: nat)
    requires FieldsListed(rd, names) && i <= |names|
    ensures FieldsListed(rd, names[..i])
    ensures Initialisers(rd, names[..i]).Err? ==> Initialisers(rd, names) == Initialisers(rd, names[..i])
  {
    KnownInFront(rd, names, i);
    if i == |names| {
      assert names[..i] == names;
    } else {
      var front := names[..|names| - 1];
      KnownInFront(rd, names, |names| - 1);
      assert front[..i] == names[..i];
      InitialiserFailureStays(rd, front, i);
    }
  }

  /** Runs the generator of one resource; the failures are those of the parts. */
  method GenerateResourceModule(rd: Definition) returns (result: Result<GeneratedModule, Failure>)
    ensures result == Generate(rd)
  {
    EverythingKnown(rd);
    var r := ResourceOf(rd);
    var route := CheckRoutes(rd, rd.endpoints.keys);
    if route.Some? {
      return Err(route.value);
    }
    var helpers := EmitListHelpers(rd, rd.endpoints.keys);
    if helpers.Err? {
      return Err(helpers.error);
    }
    var initialisers := EmitInitialisers(rd, rd.fields.keys);
    if initialisers.Err? {
      return Err(initialisers.error);
    }
    var insert := Mutations.GenerateInsertBody(r);
    var update := Mutations.GenerateUpdateBody(r);
    return Ok(GeneratedModule(helpers.value, initialisers.value, insert, update));
  }

  // ----- When generation reaches its end ------------------------------------

  predicate Routed(e: EndpointDef) {
    e.verb.Some? && (e.verb.value == Get ==> e.path.Some?)
  }

  predicate IdAt(path: string, i: nat) {
    i + 3 <= |path| && path[i] == ':' && path[i + 1] == 'i' && path[i + 2] == 'd'
  }

  /** A GET whose path has no `:id` anywhere. */
  ghost predicate ListsRows(e: EndpointDef) {
    e.verb == Some(Get) && e.path.Some? && forall i: nat :: !IdAt(e.path.value, i)
  }

  lemma IdStarts(path: string, i: nat)
    requires i <= |path|
    ensures StartsWith(path[i..], ":id") <==> IdAt(path, i)
  {
    if IdAt(path, i) {
      assert path[i..][..3] == [path[i], path[i + 1], path[i + 2]];
    }
  }

  lemma ListsRowsExactly(e: EndpointDef)
    ensures IsCollection(e) <==> ListsRows(e)
  {
    if e.path.Some? {
      forall i: nat | i <= |e.path.value| {
        IdStarts(e.path.value, i);
      }
    }
  }

  /** The filter and sort fields of an endpoint that lists rows exist. */
  ghost predicate Listable(rd: Definition, e: EndpointDef) {
    ListsRows(e) ==> forall f :: f in e.filters || f in e.sort ==> f in rd.fields.at
  }

  /** A default that a stored column needs is of the JSON kind its type asks for. */
  predicate DefaultFits(d: FieldDef) {
    !d.schema.transient && !d.schema.generated && d.schema.default.Some? ==>
      && (d.schema.fieldType in {StringType, EnumType, FileType} ==> d.kind == StringDefault)
      && (d.schema.fieldType == BooleanType ==> d.kind == BooleanDefault)
  }

  predicate DefaultsFit(rd: Definition) {
    forall f :: f in rd.fields.at ==> DefaultFits(rd.fields.at[f])
  }

  lemma {:induction false} RoutesExactly(rd: Definition, actions: seq<string>)
    requires ActionsKnown(rd, actions)
    ensures FirstRouteFailure(rd, actions) == None <==> forall a :: a in actions ==> Routed(rd.endpoints.at[a])
  {
    if actions != [] {
      var n := |actions| - 1;
      KnownInFront(rd, actions, n);
      RoutesExactly(rd, actions[..n]);
      assert actions == actions[..n] + [actions[n]];
    }
  }

  lemma HelperExactly(rd: Definition, e: EndpointDef)
    ensures ListHelperOf(rd, e).Ok? <==> ListQuery.FieldsKnown(ResourceOf(rd), QueryPart(e))
  {
    ListQuery.KnownExactly(ResourceOf(rd), QueryPart(e));
  }

  lemma {:induction false} HelpersExactly(rd: Definition, actions: seq<string>)
    requires ActionsKnown(rd, actions)
    ensures ListHelpers(rd, actions).Ok? <==> forall a :: a in actions ==> Listable(rd, rd.endpoints.at[a])
  {
    if actions != [] {
      var n := |actions| - 1;
      ListsRowsExactly(rd.endpoints.at[actions[n]]);
      KnownInFront(rd, actions, n);
      HelpersExactly(rd, actions[..n]);
      HelperExactly(rd, rd.endpoints.at[actions[n]]);
      assert actions == actions[..n] + [actions[n]];
    }
  }

  lemma {:induction false} InitialisersExactly(rd: Definition, names: seq<string>)
    requires FieldsListed(rd, names)
    ensures Initialisers(rd, names).Ok? <==> forall f :: f in names ==> DefaultFits(rd.fields.at[f])
  {
    if names != [] {
      var n := |names| - 1;
      KnownInFront(rd, names, n);
      InitialisersExactly(rd, names[..n]);
      assert names == names[..n] + [names[n]];
    }
  }

  /** Generation reaches its end exactly when every endpoint has a method and every GET a path,
      the filter and sort fields of collection endpoints exist, and stored defaults fit. */
  lemma GeneratesExactly(rd: Definition)
    ensures Generate(rd).Ok? <==>
            && (forall a :: a in rd.endpoints.at ==> Routed(rd.endpoints.at[a]))
            && (forall a :: a in rd.endpoints.at ==> Listable(rd, rd.endpoints.at[a]))
            && DefaultsFit(rd)
  {
    EverythingKnown(rd);
    RoutesExactly(rd, rd.endpoints.keys);
    HelpersExactly(rd, rd.endpoints.keys);
    InitialisersExactly(rd, rd.fields.keys);
  }

  // ----- What is generated, and why not -------------------------------------

  /** The endpoints that list rows, in order. */
  ghost function Lists(rd: Definition, actions: seq<string>): (r: seq<EndpointDef>)
    requires ActionsKnown(rd, actions)
  {
    if actions == [] then []
    else
      var e := rd.endpoints.at[actions[0]];
      (if ListsRows(e) then [e] else []) + Lists(rd, actions[1..])
  }

  lemma {:induction false} ListsAppend(rd: Definition, front: seq<string>, a: string)
    requires ActionsKnown(rd, front + [a])
    ensures ActionsKnown(rd, front)
    ensures a in rd.endpoints.at
    ensures var e := rd.endpoints.at[a];
            Lists(rd, front + [a]) == Lists(rd, front) + if ListsRows(e) then [e] else []
  {
    var all := front + [a];
    assert all[|front|] == a;
    assert forall x :: x in front ==> x in all;
    if front == [] {
      assert all == [a] && all[1..] == [];
    } else {
      assert all[1..] == front[1..] + [a];
      ListsAppend(rd, front[1..], a);
    }
  }

  ghost predicate HelperOf(rd: Definition, e: EndpointDef, h: ListQuery.ListHelper) {
    var ep := EndpointSpec(e.filters, e.search, e.sort);
    ListQuery.FieldsKnown(ResourceOf(rd), ep) && h == ListQuery.HelperFor(ResourceOf(rd), ep)
  }

  ghost predicate HelpersOf(rd: Definition, es: seq<EndpointDef>, hs: seq<ListQuery.ListHelper>) {
    |hs| == |es| && forall k :: 0 <= k < |es| ==> HelperOf(rd, es[k], hs[k])
  }

  lemma EmittedHelper(rd: Definition, e: EndpointDef)
    requires ListHelperOf(rd, e).Ok?
    ensures HelperOf(rd, e, ListHelperOf(rd, e).value)
  {
    ListQuery.KnownExactly(ResourceOf(rd), QueryPart(e));
  }

  /** There is one helper per endpoint that lists rows, in order, made from that endpoint's own
      filters, search fields and sort fields. */
  lemma {:induction false} HelpersInOrder(rd: Definition, actions: seq<string>)
    requires ActionsKnown(rd, actions) && ListHelpers(rd, actions).Ok?
    ensures HelpersOf(rd, Lists(rd, actions), ListHelpers(rd, actions).value)
  {
    if actions != [] {
      var n := |actions| - 1;
      KnownInFront(rd, actions, n);
      HelpersInOrder(rd, actions[..n]);
      OneMoreHelper(rd, actions);
    }
  }

  lemma {:induction false} OneMoreHelper(rd: Definition, actions: seq<string>)
    requires ActionsKnown(rd, actions) && ListHelpers(rd, actions).Ok? && actions != []
    requires ActionsKnown(rd, actions[..|actions| - 1]) && ListHelpers(rd, actions[..|actions| - 1]).Ok?
    requires HelpersOf(rd, Lists(rd, actions[..|actions| - 1]), ListHelpers(rd, actions[..|actions| - 1]).value)
    ensures HelpersOf(rd, Lists(rd, actions), ListHelpers(rd, actions).value)
  {
    var n := |actions| - 1;
    var e := rd.endpoints.at[actions[n]];
    assert actions == actions[..n] + [actions[n]];
    ListsAppend(rd, actions[..n], actions[n]);
    ListsRowsExactly(e);
    if IsCollection(e) {
      EmittedHelper(rd, e);
    }
  }

  /** What a column's variable starts as: drawn if generated; else parsed, with the default to
      fall back on where there is one, else NULL where the record has an Option. */
  ghost predicate StartsAs(d: FieldDef, x: InsertExpr) {
    && (x == Drawn <==> d.schema.generated)
    && (x.OrDefault? <==> !d.schema.generated && d.schema.default.Some?)
    && (x == OrNull <==> !d.schema.generated && d.schema.default.None? && d.schema.IsOptional())
    && (x == OrRefused <==> !d.schema.generated && d.schema.default.None? && !d.schema.IsOptional())
    && (x.OrDefault? ==>
          && (x.wrapped <==> d.schema.IsOptional())
          && (x.fallback == StringLiteral <==> d.schema.fieldType in {StringType, EnumType, FileType})
          && (x.fallback == BooleanLiteral <==> d.schema.fieldType == BooleanType))
  }

  lemma EmittedInitialiser(f: string, d: FieldDef)
    requires InsertDeclaration(f, d).Ok?
    ensures StartsAs(d, InsertDeclaration(f, d).value)
  {
  }

  ghost predicate ColumnsStart(rd: Definition, columns: seq<string>, xs: seq<InsertExpr>) {
    |xs| == |columns| &&
    forall k :: 0 <= k < |xs| ==> columns[k] in rd.fields.at && StartsAs(rd.fields.at[columns[k]], xs[k])
  }

  /** There is one initialiser per stored column, in order, made from that column. */
  lemma {:induction false} InitialisersInOrder(rd: Definition, names: seq<string>)
    requires FieldsListed(rd, names) && Initialisers(rd, names).Ok?
    ensures ColumnsStart(rd, Mutations.PersistedAmong(names, SchemaOf(rd).at), Initialisers(rd, names).value)
  {
    if names != [] {
      var n := |names| - 1;
      var d := rd.fields.at[names[n]];
      KnownInFront(rd, names, n);
      InitialisersInOrder(rd, names[..n]);
      assert SchemaOf(rd).at[names[n]] == d.schema;
      if !d.schema.transient {
        EmittedInitialiser(names[n], d);
      }
    }
  }

  /** A failure is real, and the first kind there is: routes before helpers before columns. */
  ghost predicate Justified(rd: Definition, failure: Failure) {
    match failure
    case NoMethodSet => exists a :: a in rd.endpoints.at && rd.endpoints.at[a].verb == None
    case NoPathSet =>
      exists a :: a in rd.endpoints.at && rd.endpoints.at[a].verb == Some(Get) && rd.endpoints.at[a].path == None
    case Unknown(f) =>
      && (forall a :: a in rd.endpoints.at ==> Routed(rd.endpoints.at[a]))
      && f !in rd.fields.at
      && exists a :: a in rd.endpoints.at && ListsRows(rd.endpoints.at[a])
                     && (f in rd.endpoints.at[a].filters || f in rd.endpoints.at[a].sort)
    case BadDefault(f) =>
      && (forall a :: a in rd.endpoints.at ==> Routed(rd.endpoints.at[a]) && Listable(rd, rd.endpoints.at[a]))
      && f in rd.fields.at && !DefaultFits(rd.fields.at[f])
  }

  lemma {:induction false} RouteJustified(rd: Definition, actions: seq<string>)
    requires ActionsKnown(rd, actions) && FirstRouteFailure(rd, actions).Some?
    ensures Justified(rd, FirstRouteFailure(rd, actions).value)
    ensures FirstRouteFailure(rd, actions).value in {NoMethodSet, NoPathSet}
  {
    var n := |actions| - 1;
    KnownInFront(rd, actions, n);
    if FirstRouteFailure(rd, actions[..n]).Some? {
      RouteJustified(rd, actions[..n]);
    } else {
      assert actions[n] in rd.endpoints.at;
    }
  }

  lemma {:induction false} HelperJustified(rd: Definition, actions: seq<string>) returns (a: string, f: string)
    requires ActionsKnown(rd, actions) && ListHelpers(rd, actions).Err?
    ensures a in actions && ListsRows(rd.endpoints.at[a]) && ListHelpers(rd, actions) == Err(Unknown(f))
    ensures f !in rd.fields.at && (f in rd.endpoints.at[a].filters || f in rd.endpoints.at[a].sort)
  {
    var n := |actions| - 1;
    KnownInFront(rd, actions, n);
    if ListHelpers(rd, actions[..n]).Err? {
      a, f := HelperJustified(rd, actions[..n]);
    } else {
      a := actions[n];
      var e := rd.endpoints.at[a];
      ListsRowsExactly(e);
      ListQuery.KnownExactly(ResourceOf(rd), QueryPart(e));
      f := ListQuery.UnknownField(ResourceOf(rd), QueryPart(e)).value;
      ListQuery.UnknownIsFirst(ResourceOf(rd), QueryPart(e));
    }
  }

  lemma {:induction false} InitialiserJustified(rd: Definition, names: seq<string>) returns (f: string)
    requires FieldsListed(rd, names) && Initialisers(rd, names).Err?
    ensures f in rd.fields.at && !DefaultFits(rd.fields.at[f]) && Initialisers(rd, names) == Err(BadDefault(f))
  {
    var n := |names| - 1;
    KnownInFront(rd, names, n);
    if Initialisers(rd, names[..n]).Err? {
      f := InitialiserJustified(rd, names[..n]);
    } else {
      f := names[n];
    }
  }

  /** Main result: what stops the generator is really there, and nothing it looks at earlier is
      wrong. */
  lemma FailureJustified(rd: Definition)
    requires Generate(rd).Err?
    ensures Justified(rd, Generate(rd).error)
  {
    EverythingKnown(rd);
    RoutesExactly(rd, rd.endpoints.keys);
    HelpersExactly(rd, rd.endpoints.keys);
    if FirstRouteFailure(rd, rd.endpoints.keys).Some? {
      RouteJustified(rd, rd.endpoints.keys);
    } else if ListHelpers(rd, rd.endpoints.keys).Err? {
      var a, f := HelperJustified(rd, rd.endpoints.keys);
    } else {
      var f := InitialiserJustified(rd, rd.fields.keys);
    }
  }

  // ----- Validation against generation --------------------------------------

  lemma ValidatedEndpoints(rd: Definition, a: string)
    requires Validated(rd) && a in rd.endpoints.at
    ensures Routed(rd.endpoints.at[a])
    ensures forall f :: f in rd.endpoints.at[a].sort ==> f in rd.fields.at
    ensures forall f :: f in rd.endpoints.at[a].filters ==> f in rd.fields.at
    ensures rd.endpoints.at[a].softDelete ==> "deleted_at" in rd.fields.at
  {
    assert !Violates(rd, NoMethod(a)) && !Violates(rd, NoPath(a)) && !Violates(rd, NoDeletedAt(a));
    forall f
      ensures f in rd.endpoints.at[a].sort ==> f in rd.fields.at
      ensures f in rd.endpoints.at[a].filters ==> f in rd.fields.at
    {
      assert !Violates(rd, UnknownField(a, Sort, f)) && !Violates(rd, UnknownField(a, Filter, f));
    }
  }

  /** What the list-query theorems ask of an endpoint holds for every validated resource. */
  lemma ValidatedFieldsKnown(rd: Definition, a: string)
    requires Validated(rd) && a in rd.endpoints.at
    ensures ListQuery.FieldsKnown(ResourceOf(rd), QueryPart(rd.endpoints.at[a]))
  {
    ValidatedEndpoints(rd, a);
  }

  /** Main result: a validated resource generates exactly when the defaults of its stored
      fields have the right kind, the one thing the validator does not check. */
  lemma ValidatedGeneratesExactly(rd: Definition)
    requires Validated(rd)
    ensures Generate(rd).Ok? <==> DefaultsFit(rd)
  {
    GeneratesExactly(rd);
    forall a | a in rd.endpoints.at
      ensures Routed(rd.endpoints.at[a]) && Listable(rd, rd.endpoints.at[a])
    {
      ValidatedEndpoints(rd, a);
      ValidatedFieldsKnown(rd, a);
    }
  }

  // ----- Validation against the store ---------------------------------------

  lemma {:induction false} PrimaryFound(names: seq<string>, at: map<string, FieldSchema>)
    requires exists f :: f in names && f in at && at[f].primary
    ensures PrimaryAmong(names, at) in names && PrimaryAmong(names, at) in at && at[PrimaryAmong(names, at)].primary
  {
    if !(names[0] in at && at[names[0]].primary) {
      PrimaryFound(names[1..], at);
    }
  }

  lemma ValidatedPrimary(rd: Definition)
    requires Validated(rd)
    ensures var pk := PrimaryKey(ResourceOf(rd));
            IsPrimary(rd, pk) && !rd.fields.at[pk].schema.transient && forall f :: IsPrimary(rd, f) ==> f == pk
  {
    assert !Violates(rd, NoPrimary) && !Violates(rd, ManyPrimaries);
    assert forall f, g :: IsPrimary(rd, f) && IsPrimary(rd, g) ==> f == g;
    var f :| IsPrimary(rd, f);
    assert f in Elements(rd.fields.keys);
    PrimaryFound(rd.fields.keys, SchemaOf(rd).at);
    var pk := PrimaryKey(ResourceOf(rd));
    assert pk == PrimaryAmong(rd.fields.keys, SchemaOf(rd).at) && IsPrimary(rd, pk);
    assert !Violates(rd, TransientPrimary(pk));
  }

  /** The two columns the generated store treats specially are ordinary stored columns. */
  predicate SystemColumnsOrdinary(rd: Definition) {
    && (SoftDeletes(rd) && "deleted_at" in rd.fields.at ==>
          !rd.fields.at["deleted_at"].schema.transient && !rd.fields.at["deleted_at"].schema.primary)
    && (Mutations.Stamps(ResourceOf(rd)) ==> !rd.fields.at["updated_at"].schema.primary)
  }

  lemma StoredExactly(rd: Definition, f: string)
    ensures f in Mutations.Persisted(ResourceOf(rd)) <==> f in rd.fields.at && !rd.fields.at[f].schema.transient
  {
    assert f in Elements(rd.fields.keys) <==> f in rd.fields.at;
  }

  /** Main result: a validated resource meets what the store theorems ask exactly when its
      deleted_at is stored and not the key and its stamped updated_at is not the key; the
      validator only checks that deleted_at is declared. */
  lemma ValidatedResourceExactly(rd: Definition)
    requires Validated(rd)
    ensures Store.ValidResource(ResourceOf(rd)) <==> SystemColumnsOrdinary(rd)
  {
    var r := ResourceOf(rd);
    var pk := PrimaryKey(r);
    ValidatedPrimary(rd);
    StoredExactly(rd, pk);
    SoftDeleteColumn(rd, pk);
    StampColumn(rd, pk);
  }

  lemma SoftDeleteColumn(rd: Definition, pk: string)
    requires Validated(rd) && IsPrimary(rd, pk) && forall f :: IsPrimary(rd, f) ==> f == pk
    ensures (SoftDeletes(rd) ==> "deleted_at" in Mutations.Persisted(ResourceOf(rd)) && pk != "deleted_at") <==>
            (SoftDeletes(rd) && "deleted_at" in rd.fields.at ==>
               !rd.fields.at["deleted_at"].schema.transient && !rd.fields.at["deleted_at"].schema.primary)
  {
    StoredExactly(rd, "deleted_at");
    if SoftDeletes(rd) {
      var a :| a in rd.endpoints.at && rd.endpoints.at[a].softDelete;
      ValidatedEndpoints(rd, a);
      assert IsPrimary(rd, "deleted_at") <==> rd.fields.at["deleted_at"].schema.primary;
    }
  }

  lemma StampColumn(rd: Definition, pk: string)
    requires Validated(rd) && IsPrimary(rd, pk) && forall f :: IsPrimary(rd, f) ==> f == pk
    ensures (Mutations.Stamps(ResourceOf(rd))
             ==> "updated_at" in Mutations.Persisted(ResourceOf(rd)) && pk != "updated_at") <==>
            (Mutations.Stamps(ResourceOf(rd)) ==> !rd.fields.at["updated_at"].schema.primary)
  {
    StoredExactly(rd, "updated_at");
    assert !Violates(rd, TransientGenerated("updated_at"));
    assert "updated_at" in rd.fields.at
      ==> (IsPrimary(rd, "updated_at") <==> rd.fields.at["updated_at"].schema.primary);
  }
}
