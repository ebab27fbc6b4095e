/** The OpenAPI document: which schemas and operations it holds, whether its references
    resolve, and what the order of its inputs can change. */
module OpenApi {
  import opened Prelude
  import opened Strings
  import opened Decimals
  import opened LastWriter
  import opened BracePath
  import opened Http

  /** `rest` stands for the parts of an endpoint that only end up inside its operation. */
  datatype Endpoint = Endpoint(verb: HttpMethod, path: string, input: Option<seq<string>>, upload: bool,
                               paginated: bool, rest: nat)

  /** `doc` stands for the JSON a field's type, format and limits are printed as; sensitive and
      transient fields are hidden. */
  datatype FieldDoc = FieldDoc(hidden: bool, required: bool, generated: bool, doc: nat)

  datatype ApiResource = ApiResource(name: string, version: nat, fields: IndexMap<FieldDoc>,
                                     endpoints: IndexMap<Endpoint>)

  /** The error schema is printed as a literal; every other schema is an object type with its
      properties, and the list of required ones, which is left out when empty. */
  datatype Schema =
    | ErrorSchema
    | ObjectSchema(properties: map<string, nat>, required: seq<string>)

  datatype RequestBody = Inline(input: seq<string>) | Reference(schema: string)

  datatype Operation = Operation(
    tag: string, action: string, fields: IndexMap<FieldDoc>, endpoint: Endpoint,
    request: Option<RequestBody>, success: Option<string>, errors: string)

  /** paths[path][method] and components.schemas[name]. */
  datatype Spec = Spec(paths: map<(string, HttpMethod), Operation>, schemas: map<string, Schema>)

  // ----- Names --------------------------------------------------------------

  function ToLower(c: char): char {
    if 'A' <= c <= 'Z' then c - 'A' + 'a' else c
  }

  /** Each underscore-separated word with its first letter in upper case, the rest in lower. */
  function Pascal(s: string, atStart: bool): string {
    if s == "" then ""
    else if s[0] == '_' then Pascal(s[1..], true)
    else [if atStart then ToUpper(s[0]) else ToLower(s[0])] + Pascal(s[1..], false)
  }

  function ToPascalCase(s: string): string {
    Pascal(s, true)
  }

  function StructName(r: ApiResource): string {
    ToPascalCase(r.name)
  }

  function InputName(r: ApiResource, action: string): string {
    StructName(r) + ToPascalCase(action) + "Input"
  }

  /** A letter in upper and lower case, or one character twice. */
  predicate SameLetter(c: char, e: char) {
    c == e || ('A' <= c <= 'Z' && e == c - 'A' + 'a') || ('A' <= e <= 'Z' && c == e - 'A' + 'a')
  }

  predicate IsUpper(c: char) {
    'A' <= c <= 'Z'
  }

  predicate IsLower(c: char) {
    'a' <= c <= 'z'
  }

  lemma {:induction false} LowerRest(s: string)
    requires '_' !in s
    ensures |Pascal(s, false)| == |s|
    ensures forall i :: 0 <= i < |s| ==> SameLetter(s[i], Pascal(s, false)[i]) && !IsUpper(Pascal(s, false)[i])
  {
    if s != "" {
      LowerRest(s[1..]);
      var t := Pascal(s, false);
      assert t == [ToLower(s[0])] + Pascal(s[1..], false);
      forall i | 0 <= i < |s|
        ensures SameLetter(s[i], t[i]) && !IsUpper(t[i])
      {
        assert i > 0 ==> s[i] == s[1..][i - 1];
      }
    }
  }

  /** A word keeps its letters; the first is in upper case, the others in lower. */
  lemma PascalWord(s: string)
    requires '_' !in s && s != ""
    ensures |ToPascalCase(s)| == |s|
    ensures forall i :: 0 <= i < |s| ==> SameLetter(s[i], ToPascalCase(s)[i])
    ensures !IsLower(ToPascalCase(s)[0]) && forall i :: 1 <= i < |s| ==> !IsUpper(ToPascalCase(s)[i])
  {
    LowerRest(s[1..]);
    assert ToPascalCase(s) == [ToUpper(s[0])] + Pascal(s[1..], false);
    assert forall i :: 1 <= i < |s| ==> s[i] == s[1..][i - 1];
  }

  /** Words are put together without the underscores between them. */
  lemma {:induction false} PascalWords(s: string, t: string, atStart: bool)
    ensures Pascal(s + "_" + t, atStart) == Pascal(s, atStart) + ToPascalCase(t)
  {
    var whole := s + "_" + t;
    if s == "" {
      assert whole == "_" + t && whole[1..] == t;
    } else {
      assert whole[0] == s[0] && whole[1..] == s[1..] + "_" + t;
      PascalWords(s[1..], t, s[0] == '_');
    }
  }

  // ----- Stable sorting by name ---------------------------------------------

  function Insert<T>(x: T, s: seq<T>, key: T -> string): seq<T> {
    if s == [] || !TextLess(key(s[0]), key(x)) then [x] + s else [s[0]] + Insert(x, s[1..], key)
  }

  function SortBy<T>(s: seq<T>, key: T -> string): seq<T> {
    if s == [] then [] else Insert(s[0], SortBy(s[1..], key), key)
  }

  ghost predicate Ascending<T>(s: seq<T>, key: T -> string) {
    forall i, j :: 0 <= i < j < |s| ==> TextLess(key(s[i]), key(s[j]))
  }

  ghost predicate DistinctKeys<T>(s: seq<T>, key: T -> string) {
    forall i, j :: 0 <= i < j < |s| ==> key(s[i]) != key(s[j])
  }

  lemma {:induction false} InsertPermutes<T>(x: T, s: seq<T>, key: T -> string)
    ensures multiset(Insert(x, s, key)) == multiset(s) + multiset{x}
  {
    if s != [] && TextLess(key(s[0]), key(x)) {
      InsertPermutes(x, s[1..], key);
      assert s == [s[0]] + s[1..];
    }
  }

  lemma {:induction false} SortPermutes<T>(s: seq<T>, key: T -> string)
    ensures multiset(SortBy(s, key)) == multiset(s)
  {
    if s != [] {
      SortPermutes(s[1..], key);
      InsertPermutes(s[0], SortBy(s[1..], key), key);
      assert s == [s[0]] + s[1..];
    }
  }

  lemma {:induction false} InsertAscends<T>(x: T, s: seq<T>, key: T -> string)
    requires Ascending(s, key) && forall y :: y in s ==> key(y) != key(x)
    ensures Ascending(Insert(x, s, key), key)
  {
    if s != [] {
      assert s[0] in s;
      LessTotal(key(s[0]), key(x));
      if TextLess(key(s[0]), key(x)) {
        InsertAscends(x, s[1..], key);
        InsertPermutes(x, s[1..], key);
        var t := Insert(x, s[1..], key);
        forall y | y in t
          ensures TextLess(key(s[0]), key(y))
        {
          assert y in multiset(t);
        }
      } else {
        forall y | y in s
          ensures TextLess(key(x), key(y))
        {
          if y != s[0] {
            LessTransitive(key(x), key(s[0]), key(y));
          }
        }
      }
    }
  }

  lemma {:induction false} SortAscends<T>(s: seq<T>, key: T -> string)
    requires DistinctKeys(s, key)
    ensures Ascending(SortBy(s, key), key)
  {
    if s != [] {
      SortAscends(s[1..], key);
      SortPermutes(s[1..], key);
      var t := SortBy(s[1..], key);
      forall y | y in t
        ensures key(y) != key(s[0])
      {
        assert y in multiset(s[1..]);
      }
      InsertAscends(s[0], t, key);
    }
  }

  /** An ascending arrangement is determined by what it arranges. */
  lemma {:induction false} AscendingUnique<T>(s: seq<T>, t: seq<T>, key: T -> string)
    requires Ascending(s, key) && Ascending(t, key) && multiset(s) == multiset(t)
    ensures s == t
  {
    assert |s| == |multiset(s)| && |t| == |multiset(t)|;
    if s != [] {
      SameFirst(s, t, key);
      assert s == [s[0]] + s[1..] && t == [t[0]] + t[1..];
      assert multiset(s[1..]) == multiset(s) - multiset{s[0]};
      assert multiset(t[1..]) == multiset(t) - multiset{t[0]};
      AscendingUnique(s[1..], t[1..], key);
    }
  }

  lemma SameFirst<T>(s: seq<T>, t: seq<T>, key: T -> string)
    requires Ascending(s, key) && Ascending(t, key) && multiset(s) == multiset(t) && s != [] && t != []
    ensures s[0] == t[0]
  {
    assert s[0] in multiset(t) && t[0] in multiset(s);
    var i :| 0 <= i < |t| && t[i] == s[0];
    var j :| 0 <= j < |s| && s[j] == t[0];
    if i > 0 && j > 0 {
      LessAsymmetric(key(s[0]), key(t[0]));
    }
  }

  /** Sorting forgets the order of what it is given, as long as no two keys are equal. */
  lemma {:induction false} SortForgetsOrder<T>(s: seq<T>, t: seq<T>, key: T -> string)
    requires multiset(s) == multiset(t) && DistinctKeys(s, key) && DistinctKeys(t, key)
    ensures SortBy(s, key) == SortBy(t, key)
  {
    SortPermutes(s, key);
    SortPermutes(t, key);
    SortAscends(s, key);
    SortAscends(t, key);
    AscendingUnique(SortBy(s, key), SortBy(t, key), key);
  }

  // ----- What one resource contributes --------------------------------------

  function NameOf(): ApiResource -> string {
    (r: ApiResource) => r.name
  }

  function Itself(): string -> string {
    (s: string) => s
  }

  /** The properties of an input: those of its fields that the resource has. */
  function Properties(fields: map<string, FieldDoc>, names: seq<string>): map<string, nat> {
    map n | n in names && n in fields :: fields[n].doc
  }

  function RequiredAmong(fields: map<string, FieldDoc>, names: seq<string>): seq<string> {
    if names == [] then []
    else
      var n := |names| - 1;
      RequiredAmong(fields, names[..n]) + if names[n] in fields && fields[names[n]].required then [names[n]] else []
  }

  /** Only the input of `create` says what is required. */
  function InputSchema(fields: map<string, FieldDoc>, input: seq<string>, isCreate: bool): Schema {
    ObjectSchema(Properties(fields, input), if isCreate then RequiredAmong(fields, input) else [])
  }

  function VisibleAmong(fields: map<string, FieldDoc>, names: seq<string>): map<string, nat> {
    map n | n in names && n in fields && !fields[n].hidden :: fields[n].doc
  }

  function DemandedAmong(fields: map<string, FieldDoc>, names: seq<string>): seq<string> {
    if names == [] then []
    else
      var n := |names| - 1;
      DemandedAmong(fields, names[..n])
      + if names[n] in fields && !fields[names[n]].hidden && fields[names[n]].required && !fields[names[n]].generated
        then [names[n]] else []
  }

  function ResourceSchema(fields: IndexMap<FieldDoc>): Schema {
    ObjectSchema(VisibleAmong(fields.at, fields.keys), DemandedAmong(fields.at, fields.keys))
  }

  method BuildInputSchema(fields: map<string, FieldDoc>, input: seq<string>, isCreate: bool) returns (schema: Schema)
    ensures schema == InputSchema(fields, input, isCreate)
  {
    var properties: map<string, nat> := map[];
    var required: seq<string> := [];
    for i := 0 to |input|
      invariant properties == Properties(fields, input[..i])
      invariant required == if isCreate then RequiredAmong(fields, input[..i]) else []
    {
      var name := input[i];
      assert input[..i + 1][..i] == input[..i];
      if name in fields {
        properties := properties[name := fields[name].doc];
        if isCreate && fields[name].required {
          required := required + [name];
        }
      }
    }
    assert input[..|input|] == input;
    schema := ObjectSchema(properties, required);
  }

  lemma VisibleStep(fields: map<string, FieldDoc>, front: seq<string>, name: string)
    requires name in fields
    ensures VisibleAmong(fields, front + [name])
            == if fields[name].hidden then VisibleAmong(fields, front)
              else VisibleAmong(fields, front)[name := fields[name].doc]
  {
  }

  method BuildResourceSchema(fields: IndexMap<FieldDoc>) returns (schema: Schema)
    ensures schema == ResourceSchema(fields)
  {
    var properties: map<string, nat> := map[];
    var required: seq<string> := [];
    var names := fields.keys;
    for i := 0 to |names|
      invariant properties == VisibleAmong(fields.at, names[..i])
      invariant required == DemandedAmong(fields.at, names[..i])
    {
      var name := names[i];
      assert name in Elements(names);
      assert names[..i + 1] == names[..i] + [name];
      VisibleStep(fields.at, names[..i], name);
      if fields.at[name].hidden {
        continue;
      }
      properties := properties[name := fields.at[name].doc];
      if fields.at[name].required && !fields.at[name].generated {
        required := required + [name];
      }
    }
    assert names[..|names|] == names;
    schema := ObjectSchema(properties, required);
  }

  /** Schemas for the inputs of the given actions, in that order. */
  function InputEntries(r: ApiResource, actions: seq<string>): seq<(string, Schema)> {
    if actions == [] then [] else InputEntry(r, actions[0]) + InputEntries(r, actions[1..])
  }

  function InputEntry(r: ApiResource, a: string): seq<(string, Schema)> {
    if TakesInput(r, a) then [(InputName(r, a), InputSchemaOf(r, a))] else []
  }

  predicate TakesInput(r: ApiResource, a: string) {
    a in r.endpoints.at && r.endpoints.at[a].input.Some?
  }

  function InputSchemaOf(r: ApiResource, a: string): Schema
    requires TakesInput(r, a)
  {
    InputSchema(r.fields.at, r.endpoints.at[a].input.value, a == "create")
  }

  function SchemaEntries(r: ApiResource): seq<(string, Schema)> {
    [(StructName(r), ResourceSchema(r.fields))] + InputEntries(r, r.endpoints.keys)
  }

  function OperationPath(r: ApiResource, e: Endpoint): string {
    "/v" + Decimal(r.version) + ToBrace(e.path)
  }

  function BuildOperation(r: ApiResource, action: string, e: Endpoint): Operation {
    var request :=
      if e.input.None? || e.input.value == [] then None
      else if e.upload then Some(Inline(e.input.value))
      else Some(Reference(InputName(r, action)));
    var success := if e.verb == Delete then None else Some(StructName(r));
    Operation(r.name, action, r.fields, e, request, success, "ErrorResponse")
  }

  function OperationEntries(r: ApiResource, actions: seq<string>): seq<((string, HttpMethod), Operation)> {
    if actions == [] then [] else OperationEntry(r, actions[0]) + OperationEntries(r, actions[1..])
  }

  function OperationEntry(r: ApiResource, a: string): seq<((string, HttpMethod), Operation)> {
    if a in r.endpoints.at then
      var e := r.endpoints.at[a];
      [((OperationPath(r, e), e.verb), BuildOperation(r, a, e))]
    else []
  }

  function AllSchemas(rs: seq<ApiResource>): seq<(string, Schema)> {
    if rs == [] then [] else SchemaEntries(rs[0]) + AllSchemas(rs[1..])
  }

  function AllOperations(rs: seq<ApiResource>): seq<((string, HttpMethod), Operation)> {
    if rs == [] then [] else OperationEntries(rs[0], SortBy(rs[0].endpoints.keys, Itself())) + AllOperations(rs[1..])
  }

  function Entries(rs: seq<ApiResource>): seq<(string, Schema)> {
    [("ErrorResponse", ErrorSchema)] + AllSchemas(SortBy(rs, NameOf()))
  }

  function SpecOf(rs: seq<ApiResource>): Spec {
    Spec(Write(map[], AllOperations(SortBy(rs, NameOf()))), Write(map[], Entries(rs)))
  }

  method Generate(resources: seq<ApiResource>) returns (spec: Spec)
    ensures spec == SpecOf(resources)
  {
    var paths: map<(string, HttpMethod), Operation> := map[];
    var schemas: map<string, Schema> := map["ErrorResponse" := ErrorSchema];
    var sorted := SortBy(resources, NameOf());
    Starts(resources, sorted);
    for i := 0 to |sorted|
      invariant Midway(paths, schemas, sorted[i..], SpecOf(resources))
    {
      WritesFirst(paths, schemas, sorted, i, SpecOf(resources));
      schemas := AddSchemas(sorted[i], schemas);
      paths := AddOperations(sorted[i], paths);
    }
    Finishes(paths, schemas, sorted, SpecOf(resources));
    spec := Spec(paths, schemas);
  }

  lemma Finishes(paths: map<(string, HttpMethod), Operation>, schemas: map<string, Schema>, rs: seq<ApiResource>,
                 whole: Spec)
    requires Midway(paths, schemas, rs[|rs|..], whole)
    ensures Spec(paths, schemas) == whole
  {
    assert rs[|rs|..] == [];
  }

  /** What is left to write leads to the whole document. */
  ghost predicate Midway(paths: map<(string, HttpMethod), Operation>, schemas: map<string, Schema>,
                         left: seq<ApiResource>, whole: Spec) {
    Write(schemas, AllSchemas(left)) == whole.schemas && Write(paths, AllOperations(left)) == whole.paths
  }

  lemma {:induction false} Starts(rs: seq<ApiResource>, sorted: seq<ApiResource>)
    requires sorted == SortBy(rs, NameOf())
    ensures Midway(map[], map["ErrorResponse" := ErrorSchema], sorted[0..], SpecOf(rs))
  {
    assert sorted[0..] == sorted;
    assert Entries(rs)[1..] == AllSchemas(sorted);
  }

  lemma {:induction false} WritesFirst(paths: map<(string, HttpMethod), Operation>, schemas: map<string, Schema>,
                                       rs: seq<ApiResource>, i: nat, whole: Spec)
    requires i < |rs| && Midway(paths, schemas, rs[i..], whole)
    ensures Midway(Write(paths, OperationEntries(rs[i], SortBy(rs[i].endpoints.keys, Itself()))),
                   Write(schemas, SchemaEntries(rs[i])), rs[i + 1..], whole)
  {
    assert rs[i..][1..] == rs[i + 1..];
    WriteAppend(schemas, SchemaEntries(rs[i]), AllSchemas(rs[i + 1..]));
    WriteAppend(paths, OperationEntries(rs[i], SortBy(rs[i].endpoints.keys, Itself())), AllOperations(rs[i + 1..]));
  }

  method AddSchemas(r: ApiResource, before: map<string, Schema>) returns (schemas: map<string, Schema>)
    ensures schemas == Write(before, SchemaEntries(r))
  {
    var own := BuildResourceSchema(r.fields);
    schemas := before[StructName(r) := own];
    assert SchemaEntries(r)[1..] == InputEntries(r, r.endpoints.keys);
    var actions := r.endpoints.keys;
    for k := 0 to |actions|
      invariant Write(schemas, InputEntries(r, actions[k..])) == Write(before, SchemaEntries(r))
    {
      assert actions[k..][1..] == actions[k + 1..];
      var a := actions[k];
      WriteAppend(schemas, InputEntry(r, a), InputEntries(r, actions[k + 1..]));
      if TakesInput(r, a) {
        var input := BuildInputSchema(r.fields.at, r.endpoints.at[a].input.value, a == "create");
        WriteOne(schemas, (InputName(r, a), input));
        schemas := schemas[InputName(r, a) := input];
      }
    }
  }

  method AddOperations(r: ApiResource, before: map<(string, HttpMethod), Operation>)
    returns (paths: map<(string, HttpMethod), Operation>)
    ensures paths == Write(before, OperationEntries(r, SortBy(r.endpoints.keys, Itself())))
  {
    paths := before;
    var actions := SortBy(r.endpoints.keys, Itself());
    for k := 0 to |actions|
      invariant Write(paths, OperationEntries(r, actions[k..])) == Write(before, OperationEntries(r, actions))
    {
      assert actions[k..][1..] == actions[k + 1..];
      var a := actions[k];
      WriteAppend(paths, OperationEntry(r, a), OperationEntries(r, actions[k + 1..]));
      if a in r.endpoints.at {
        var e := r.endpoints.at[a];
        WriteOne(paths, ((OperationPath(r, e), e.verb), BuildOperation(r, a, e)));
        paths := paths[(OperationPath(r, e), e.verb) := BuildOperation(r, a, e)];
      }
    }
  }

  // ----- References ---------------------------------------------------------

  /** Every name an operation refers to under components.schemas. */
  function Refs(op: Operation): set<string> {
    (if op.request.Some? && op.request.value.Reference? then {op.request.value.schema} else {})
    + (if op.success.Some? then {op.success.value} else {})
    + {op.errors}
  }

  lemma {:induction false} InputListed(r: ApiResource, actions: seq<string>, a: string)
    requires a in actions && TakesInput(r, a)
    ensures (InputName(r, a), InputSchemaOf(r, a)) in InputEntries(r, actions)
  {
    if a != actions[0] {
      InputListed(r, actions[1..], a);
    }
  }

  lemma {:induction false} InputFrom(r: ApiResource, actions: seq<string>, entry: (string, Schema)) returns (a: string)
    requires entry in InputEntries(r, actions)
    ensures a in actions && TakesInput(r, a) && entry == (InputName(r, a), InputSchemaOf(r, a))
  {
    if entry in InputEntry(r, actions[0]) {
      a := actions[0];
    } else {
      a := InputFrom(r, actions[1..], entry);
    }
  }

  lemma {:induction false} SchemasListed(rs: seq<ApiResource>, r: ApiResource, entry: (string, Schema))
    requires r in rs && entry in SchemaEntries(r)
    ensures entry in AllSchemas(rs)
  {
    if r != rs[0] {
      SchemasListed(rs[1..], r, entry);
    }
  }

  lemma {:induction false} SchemaFrom(rs: seq<ApiResource>, entry: (string, Schema)) returns (r: ApiResource)
    requires entry in AllSchemas(rs)
    ensures r in rs && entry in SchemaEntries(r)
  {
    if entry in SchemaEntries(rs[0]) {
      r := rs[0];
    } else {
      r := SchemaFrom(rs[1..], entry);
    }
  }

  lemma {:induction false} ActionFrom(r: ApiResource, actions: seq<string>, entry: ((string, HttpMethod), Operation))
    returns (a: string)
    requires entry in OperationEntries(r, actions)
    ensures a in actions && a in r.endpoints.at && entry.1 == BuildOperation(r, a, r.endpoints.at[a])
  {
    if entry in OperationEntry(r, actions[0]) {
      a := actions[0];
    } else {
      a := ActionFrom(r, actions[1..], entry);
    }
  }

  lemma {:induction false} OperationFrom(rs: seq<ApiResource>, entry: ((string, HttpMethod), Operation))
    returns (r: ApiResource, a: string)
    requires entry in AllOperations(rs)
    ensures r in rs && a in r.endpoints.at && entry.1 == BuildOperation(r, a, r.endpoints.at[a])
  {
    if entry in OperationEntries(rs[0], SortBy(rs[0].endpoints.keys, Itself())) {
      r := rs[0];
      a := ActionFrom(r, SortBy(r.endpoints.keys, Itself()), entry);
    } else {
      r, a := OperationFrom(rs[1..], entry);
    }
  }

  lemma SchemaPresent(rs: seq<ApiResource>, entry: (string, Schema))
    requires entry in Entries(rs)
    ensures entry.0 in SpecOf(rs).schemas
  {
    var k :| 0 <= k < |Entries(rs)| && Entries(rs)[k] == entry;
    WrittenExactly(Entries(rs), entry.0);
  }

  lemma {:induction false} EntryPresent(rs: seq<ApiResource>, r: ApiResource, entry: (string, Schema))
    requires r in SortBy(rs, NameOf()) && entry in SchemaEntries(r)
    ensures entry.0 in SpecOf(rs).schemas
  {
    SchemasListed(SortBy(rs, NameOf()), r, entry);
    SchemaPresent(rs, entry);
  }

  lemma {:induction false} InputPresent(rs: seq<ApiResource>, r: ApiResource, a: string)
    requires r in SortBy(rs, NameOf()) && TakesInput(r, a)
    ensures InputName(r, a) in SpecOf(rs).schemas
  {
    assert a in Elements(r.endpoints.keys);
    InputListed(r, r.endpoints.keys, a);
    EntryPresent(rs, r, (InputName(r, a), InputSchemaOf(r, a)));
  }

  lemma {:induction false} OperationRefsPresent(rs: seq<ApiResource>, r: ApiResource, a: string)
    requires r in SortBy(rs, NameOf()) && a in r.endpoints.at
    ensures Refs(BuildOperation(r, a, r.endpoints.at[a])) <= SpecOf(rs).schemas.Keys
  {
    var known := SpecOf(rs).schemas.Keys;
    SchemaPresent(rs, ("ErrorResponse", ErrorSchema));
    EntryPresent(rs, r, (StructName(r), ResourceSchema(r.fields)));
    if TakesInput(r, a) {
      InputPresent(rs, r, a);
    }
    RefsAre(r, a, known);
  }

  lemma RefsAre(r: ApiResource, a: string, known: set<string>)
    requires a in r.endpoints.at && "ErrorResponse" in known && StructName(r) in known
    requires TakesInput(r, a) ==> InputName(r, a) in known
    ensures Refs(BuildOperation(r, a, r.endpoints.at[a])) <= known
  {
  }

  /** Main result: every reference in the document resolves, whatever the resources. */
  lemma RefsResolve(rs: seq<ApiResource>, at: (string, HttpMethod))
    requires at in SpecOf(rs).paths
    ensures Refs(SpecOf(rs).paths[at]) <= SpecOf(rs).schemas.Keys
  {
    var sorted := SortBy(rs, NameOf());
    WrittenExactly(AllOperations(sorted), at);
    var r, a := OperationFrom(sorted, (at, SpecOf(rs).paths[at]));
    OperationRefsPresent(rs, r, a);
  }

  // ----- What references lead to --------------------------------------------

  /** Schemas that are written under one name are the same. */
  ghost predicate NamesApart(rs: seq<ApiResource>) {
    forall p, q :: p in Entries(rs) && q in Entries(rs) && p.0 == q.0 ==> p == q
  }

  ghost predicate Holds(schemas: map<string, Schema>, name: string, schema: Schema) {
    name in schemas && schemas[name] == schema
  }

  lemma HoldsEntry(rs: seq<ApiResource>, entry: (string, Schema))
    requires NamesApart(rs) && entry in Entries(rs)
    ensures Holds(SpecOf(rs).schemas, entry.0, entry.1)
  {
    SchemaPresent(rs, entry);
    WrittenExactly(Entries(rs), entry.0);
  }

  lemma HoldsOfResource(rs: seq<ApiResource>, r: ApiResource, entry: (string, Schema))
    requires NamesApart(rs) && r in rs && entry in SchemaEntries(r)
    ensures Holds(SpecOf(rs).schemas, entry.0, entry.1)
  {
    SortPermutes(rs, NameOf());
    assert r in multiset(SortBy(rs, NameOf()));
    SchemasListed(SortBy(rs, NameOf()), r, entry);
    assert entry in Entries(rs);
    HoldsEntry(rs, entry);
  }

  /** A body is asked for where there is something to send; an upload lists its input in place,
      any other body is the schema built from the endpoint's own input. */
  ghost predicate AsksFor(schemas: map<string, Schema>, r: ApiResource, a: string, op: Operation)
    requires a in r.endpoints.at
  {
    var e := r.endpoints.at[a];
    match op.request
    case None => e.input.None? || e.input.value == []
    case Some(Inline(input)) => e.upload && e.input == Some(input) && input != []
    case Some(Reference(name)) =>
      !e.upload && TakesInput(r, a) && e.input.value != [] && Holds(schemas, name, InputSchemaOf(r, a))
  }

  /** A delete answers with nothing, all else with the schema of its own resource; errors with
      the error schema. */
  ghost predicate AnswersWith(schemas: map<string, Schema>, r: ApiResource, a: string, op: Operation)
    requires a in r.endpoints.at
  {
    && (op.success.None? <==> r.endpoints.at[a].verb == Delete)
    && (op.success.Some? ==> Holds(schemas, op.success.value, ResourceSchema(r.fields)))
    && Holds(schemas, op.errors, ErrorSchema)
  }

  lemma Asks(rs: seq<ApiResource>, r: ApiResource, a: string)
    requires NamesApart(rs) && r in rs && a in r.endpoints.at
    ensures AsksFor(SpecOf(rs).schemas, r, a, BuildOperation(r, a, r.endpoints.at[a]))
  {
    if TakesInput(r, a) {
      assert a in Elements(r.endpoints.keys);
      InputListed(r, r.endpoints.keys, a);
      HoldsOfResource(rs, r, (InputName(r, a), InputSchemaOf(r, a)));
    }
  }

  lemma Answers(rs: seq<ApiResource>, r: ApiResource, a: string)
    requires NamesApart(rs) && r in rs && a in r.endpoints.at
    ensures AnswersWith(SpecOf(rs).schemas, r, a, BuildOperation(r, a, r.endpoints.at[a]))
  {
    HoldsEntry(rs, ("ErrorResponse", ErrorSchema));
    HoldsOfResource(rs, r, (StructName(r), ResourceSchema(r.fields)));
  }

  /** Whose operation stands at a path and method. */
  ghost predicate StandsFor(r: ApiResource, a: string, at: (string, HttpMethod), op: Operation) {
    && a in r.endpoints.at
    && at == ("/v" + Decimal(r.version) + ToBrace(r.endpoints.at[a].path), r.endpoints.at[a].verb)
    && op.tag == r.name && op.action == a && op.fields == r.fields && op.endpoint == r.endpoints.at[a]
  }

  lemma {:induction false} ActionAt(r: ApiResource, actions: seq<string>, entry: ((string, HttpMethod), Operation))
    returns (a: string)
    requires entry in OperationEntries(r, actions)
    ensures StandsFor(r, a, entry.0, entry.1) && entry.1 == BuildOperation(r, a, r.endpoints.at[a])
  {
    if entry in OperationEntry(r, actions[0]) {
      a := actions[0];
    } else {
      a := ActionAt(r, actions[1..], entry);
    }
  }

  lemma {:induction false} OperationAt(rs: seq<ApiResource>, entry: ((string, HttpMethod), Operation))
    returns (r: ApiResource, a: string)
    requires entry in AllOperations(rs)
    ensures r in rs && StandsFor(r, a, entry.0, entry.1) && entry.1 == BuildOperation(r, a, r.endpoints.at[a])
  {
    if entry in OperationEntries(rs[0], SortBy(rs[0].endpoints.keys, Itself())) {
      r := rs[0];
      a := ActionAt(r, SortBy(r.endpoints.keys, Itself()), entry);
    } else {
      r, a := OperationAt(rs[1..], entry);
    }
  }

  /** Main result: where differing schemas have different names, an operation's references lead
      to the schemas of the resource and the action it stands for. */
  lemma OperationsMeanTheirOwn(rs: seq<ApiResource>, at: (string, HttpMethod)) returns (r: ApiResource, a: string)
    requires NamesApart(rs) && at in SpecOf(rs).paths
    ensures r in rs && StandsFor(r, a, at, SpecOf(rs).paths[at])
    ensures AsksFor(SpecOf(rs).schemas, r, a, SpecOf(rs).paths[at])
    ensures AnswersWith(SpecOf(rs).schemas, r, a, SpecOf(rs).paths[at])
  {
    var sorted := SortBy(rs, NameOf());
    WrittenExactly(AllOperations(sorted), at);
    r, a := OperationAt(sorted, (at, SpecOf(rs).paths[at]));
    SortPermutes(rs, NameOf());
    assert r in multiset(sorted);
    Asks(rs, r, a);
    Answers(rs, r, a);
  }

  lemma {:induction false} ActionListed(r: ApiResource, actions: seq<string>, a: string) returns (op: Operation)
    requires a in actions && a in r.endpoints.at
    ensures ((OperationPath(r, r.endpoints.at[a]), r.endpoints.at[a].verb), op) in OperationEntries(r, actions)
  {
    if a == actions[0] {
      op := BuildOperation(r, a, r.endpoints.at[a]);
    } else {
      op := ActionListed(r, actions[1..], a);
    }
  }

  lemma {:induction false} OperationListed(rs: seq<ApiResource>, r: ApiResource, a: string) returns (op: Operation)
    requires r in rs && a in r.endpoints.at
    ensures ((OperationPath(r, r.endpoints.at[a]), r.endpoints.at[a].verb), op) in AllOperations(rs)
  {
    if r == rs[0] {
      SortPermutes(r.endpoints.keys, Itself());
      assert a in Elements(r.endpoints.keys);
      assert a in multiset(SortBy(r.endpoints.keys, Itself()));
      op := ActionListed(r, SortBy(r.endpoints.keys, Itself()), a);
    } else {
      op := OperationListed(rs[1..], r, a);
    }
  }

  /** The path and method of every endpoint have an operation, of an endpoint with that path and method. */
  lemma PathsHoldOperations(rs: seq<ApiResource>, r: ApiResource, a: string)
    requires r in rs && a in r.endpoints.at
    ensures var at := ("/v" + Decimal(r.version) + ToBrace(r.endpoints.at[a].path), r.endpoints.at[a].verb);
            && at in SpecOf(rs).paths
            && exists s, b :: s in rs && StandsFor(s, b, at, SpecOf(rs).paths[at])
  {
    var sorted := SortBy(rs, NameOf());
    SortPermutes(rs, NameOf());
    assert r in multiset(sorted);
    var op := OperationListed(sorted, r, a);
    var at := (OperationPath(r, r.endpoints.at[a]), r.endpoints.at[a].verb);
    assert (at, op) in AllOperations(sorted);
    var k :| 0 <= k < |AllOperations(sorted)| && AllOperations(sorted)[k] == (at, op);
    WrittenExactly(AllOperations(sorted), at);
    var s, b := OperationAt(sorted, (at, SpecOf(rs).paths[at]));
    assert s in multiset(sorted);
  }

  /** Where an endpoint's operation is put. */
  function PlaceOf(r: ApiResource, a: string): (string, HttpMethod)
    requires a in r.endpoints.at
  {
    (OperationPath(r, r.endpoints.at[a]), r.endpoints.at[a].verb)
  }

  ghost predicate IsPlace(r: ApiResource, actions: seq<string>, at: (string, HttpMethod)) {
    exists a :: a in actions && a in r.endpoints.at && PlaceOf(r, a) == at
  }

  /** The action is there, and no later one has its place. */
  ghost predicate LastAt(r: ApiResource, actions: seq<string>, at: (string, HttpMethod), a: string) {
    && a in actions && a in r.endpoints.at && PlaceOf(r, a) == at
    && forall b :: b in actions && b in r.endpoints.at && PlaceOf(r, b) == at ==> b == a || TextLess(b, a)
  }

  lemma {:induction false} NoPlace(r: ApiResource, actions: seq<string>, at: (string, HttpMethod),
                m: map<(string, HttpMethod), Operation>)
    requires !IsPlace(r, actions, at)
    ensures at in Write(m, OperationEntries(r, actions)) <==> at in m
    ensures at in m ==> Write(m, OperationEntries(r, actions))[at] == m[at]
  {
    var es := OperationEntries(r, actions);
    LastWriteStays(m, es, at);
    forall i | 0 <= i < |es|
      ensures es[i].0 != at
    {
      var a := ActionHere(r, actions, es[i]);
    }
  }

  lemma {:induction false} ActionHere(r: ApiResource, actions: seq<string>, entry: ((string, HttpMethod), Operation))
    returns (a: string)
    requires entry in OperationEntries(r, actions)
    ensures a in actions && a in r.endpoints.at && PlaceOf(r, a) == entry.0
  {
    if entry in OperationEntry(r, actions[0]) {
      a := actions[0];
    } else {
      a := ActionHere(r, actions[1..], entry);
    }
  }

  /** Of the actions of one resource that share a place, the last by name stands there. */
  lemma {:induction false} LastActionStands(r: ApiResource, actions: seq<string>, at: (string, HttpMethod),
                                            m: map<(string, HttpMethod), Operation>) returns (a: string)
    requires Ascending(actions, Itself()) && IsPlace(r, actions, at)
    ensures LastAt(r, actions, at, a) && at in Write(m, OperationEntries(r, actions))
    ensures Write(m, OperationEntries(r, actions))[at] == BuildOperation(r, a, r.endpoints.at[a])
    decreases |actions|
  {
    var first, rest := actions[0], actions[1..];
    var m1 := Write(m, OperationEntry(r, first));
    WriteAppend(m, OperationEntry(r, first), OperationEntries(r, rest));
    assert actions == [first] + rest;
    assert Ascending(rest, Itself());
    if IsPlace(r, rest, at) {
      a := LastActionStands(r, rest, at, m1);
      var i :| 0 <= i < |rest| && rest[i] == a;
      assert actions[i + 1] == a;
      assert TextLess(Itself()(first), Itself()(a));
    } else {
      a := first;
      NoPlace(r, rest, at, m1);
      WriteOne(m, (at, BuildOperation(r, a, r.endpoints.at[a])));
    }
  }

  /** Main result, one resource: where several actions share a path and a method, the document
      holds the operation of the last of them by name. */
  lemma LastOperationStands(r: ApiResource, a: string) returns (b: string)
    requires a in r.endpoints.at
    ensures PlaceOf(r, a) in SpecOf([r]).paths && StandsFor(r, b, PlaceOf(r, a), SpecOf([r]).paths[PlaceOf(r, a)])
    ensures forall c :: c in r.endpoints.at && PlaceOf(r, c) == PlaceOf(r, a) ==> c == b || TextLess(c, b)
  {
    var actions := SortedActions(r);
    b := LastActionStands(r, actions, PlaceOf(r, a), map[]);
    PathsOfOne(r);
  }

  lemma SortedActions(r: ApiResource) returns (actions: seq<string>)
    ensures actions == SortBy(r.endpoints.keys, Itself()) && Ascending(actions, Itself())
    ensures forall c :: c in actions <==> c in r.endpoints.at
  {
    var keys := r.endpoints.keys;
    actions := SortBy(keys, Itself());
    assert DistinctKeys(keys, Itself());
    SortAscends(keys, Itself());
    SortPermutes(keys, Itself());
    forall c
      ensures c in actions <==> c in r.endpoints.at
    {
      assert c in actions <==> c in multiset(actions);
      assert c in keys <==> c in multiset(keys);
      assert c in Elements(keys) <==> c in r.endpoints.at;
    }
  }

  lemma {:induction false} PathsOfOne(r: ApiResource)
    ensures SpecOf([r]).paths == Write(map[], OperationEntries(r, SortBy(r.endpoints.keys, Itself())))
  {
    OneResource(r);
    assert [r][1..] == [];
    var es := OperationEntries(r, SortBy(r.endpoints.keys, Itself()));
    assert AllOperations([r]) == es + AllOperations([]) == es;
  }

  // ----- What schemas show --------------------------------------------------

  /** The list keeps the order in which its names stand in the other. */
  ghost predicate InOrderOf(sub: seq<string>, whole: seq<string>) {
    forall i, j :: 0 <= i < j < |sub| ==> Before(sub[i], sub[j], whole)
  }

  ghost predicate Before(x: string, y: string, whole: seq<string>) {
    exists p, q :: 0 <= p < q < |whole| && whole[p] == x && whole[q] == y
  }

  lemma OneMoreInOrder(sub: seq<string>, whole: seq<string>, name: string)
    requires InOrderOf(sub, whole) && forall x :: x in sub ==> x in whole
    ensures InOrderOf(sub, whole + [name]) && InOrderOf(sub + [name], whole + [name])
  {
    var more := whole + [name];
    forall i, j | 0 <= i < j < |sub + [name]|
      ensures Before((sub + [name])[i], (sub + [name])[j], more)
    {
      if j < |sub| {
        assert Before(sub[i], sub[j], whole);
        var p, q :| 0 <= p < q < |whole| && whole[p] == sub[i] && whole[q] == sub[j];
        assert more[p] == sub[i] && more[q] == sub[j];
      } else {
        assert sub[i] in whole;
        var p :| 0 <= p < |whole| && whole[p] == sub[i];
        assert more[p] == sub[i] && more[|whole|] == name;
      }
    }
    assert forall i :: 0 <= i < |sub| ==> (sub + [name])[i] == sub[i];
  }

  lemma {:induction false} DemandedExactly(fields: map<string, FieldDoc>, names: seq<string>)
    ensures forall f :: f in DemandedAmong(fields, names) <==>
              f in names && f in fields && !fields[f].hidden && fields[f].required && !fields[f].generated
    ensures InOrderOf(DemandedAmong(fields, names), names)
  {
    if names != [] {
      var n := |names| - 1;
      DemandedExactly(fields, names[..n]);
      assert names == names[..n] + [names[n]];
      OneMoreInOrder(DemandedAmong(fields, names[..n]), names[..n], names[n]);
    }
  }

  lemma {:induction false} RequiredInOrder(fields: map<string, FieldDoc>, names: seq<string>)
    ensures forall f :: f in RequiredAmong(fields, names) <==> f in names && f in fields && fields[f].required
    ensures InOrderOf(RequiredAmong(fields, names), names)
  {
    if names != [] {
      var n := |names| - 1;
      RequiredInOrder(fields, names[..n]);
      assert names == names[..n] + [names[n]];
      OneMoreInOrder(RequiredAmong(fields, names[..n]), names[..n], names[n]);
    }
  }

  /** A resource's schema hides the hidden fields and documents the others as they are; what a
      reader can rely on is required and not left to be generated. */
  lemma ResourceSchemaShows(fields: IndexMap<FieldDoc>)
    ensures ResourceSchema(fields).ObjectSchema?
    ensures forall f :: f in ResourceSchema(fields).properties <==> f in fields.at && !fields.at[f].hidden
    ensures forall f :: f in ResourceSchema(fields).properties ==>
              ResourceSchema(fields).properties[f] == fields.at[f].doc
    ensures forall f :: f in ResourceSchema(fields).required <==>
              f in fields.at && !fields.at[f].hidden && fields.at[f].required && !fields.at[f].generated
    ensures InOrderOf(ResourceSchema(fields).required, fields.keys)
  {
    DemandedExactly(fields.at, fields.keys);
    forall f
      ensures f in fields.keys <==> f in fields.at
    {
      assert f in Elements(fields.keys) <==> f in fields.at;
    }
  }

  /** An input's schema documents its known fields, hidden or not, and demands the required ones
      for `create` alone. */
  lemma InputSchemaShows(r: ApiResource, a: string)
    requires TakesInput(r, a)
    ensures var s, input := InputSchemaOf(r, a), r.endpoints.at[a].input.value;
            && s.ObjectSchema?
            && (forall f :: f in s.properties <==> f in input && f in r.fields.at)
            && (forall f :: f in s.properties ==> s.properties[f] == r.fields.at[f].doc)
            && (forall f :: f in s.required <==>
                 a == "create" && f in input && f in r.fields.at && r.fields.at[f].required)
            && InOrderOf(s.required, input)
  {
    RequiredInOrder(r.fields.at, r.endpoints.at[a].input.value);
  }

  lemma InputIsNoError(r: ApiResource, a: string)
    ensures InputName(r, a) != "ErrorResponse"
  {
    var name := InputName(r, a);
    assert name[|name| - 1] == 't';
    assert "ErrorResponse"[12] == 'e';
  }

  lemma ErrorOnlyFirst(rs: seq<ApiResource>)
    requires forall r :: r in rs ==> StructName(r) != "ErrorResponse"
    ensures IsLast(Entries(rs), 0, "ErrorResponse")
  {
    var es := Entries(rs);
    forall j | 0 < j < |es|
      ensures es[j].0 != "ErrorResponse"
    {
      var sorted := SortBy(rs, NameOf());
      assert es[j] == AllSchemas(sorted)[j - 1];
      var r := SchemaFrom(sorted, es[j]);
      SortPermutes(rs, NameOf());
      assert r in multiset(sorted);
      if es[j] != (StructName(r), ResourceSchema(r.fields)) {
        var a := InputFrom(r, r.endpoints.keys, es[j]);
        InputIsNoError(r, a);
      }
    }
  }

  lemma {:induction false} LaterWriteWins(first: (string, Schema), later: seq<(string, Schema)>,
                                          entry: (string, Schema))
    requires entry in later && entry.0 == first.0
    ensures first.0 in Write(map[], [first] + later) && (first.0, Write(map[], [first] + later)[first.0]) in later
  {
    var es := [first] + later;
    var k :| 0 <= k < |later| && later[k] == entry;
    assert es[k + 1] == entry;
    var i := SomeoneIsLast(es, k + 1);
    LastWriteStays(map[], es, first.0);
    assert es[i] == later[i - 1];
  }

  lemma {:induction false} NotTheErrorSchema(rs: seq<ApiResource>, entry: (string, Schema))
    requires entry in AllSchemas(rs)
    ensures entry.1 != ErrorSchema
  {
    var owner := SchemaFrom(rs, entry);
    if entry in InputEntries(owner, owner.endpoints.keys) {
      var a := InputFrom(owner, owner.endpoints.keys, entry);
    }
  }

  lemma ErrorWrittenLater(rs: seq<ApiResource>, r: ApiResource)
    requires r in rs && StructName(r) == "ErrorResponse"
    ensures "ErrorResponse" in SpecOf(rs).schemas && SpecOf(rs).schemas["ErrorResponse"] != ErrorSchema
  {
    var es := Entries(rs);
    var sorted := SortBy(rs, NameOf());
    SortPermutes(rs, NameOf());
    assert r in multiset(rs);
    var later := AllSchemas(sorted);
    SchemasListed(sorted, r, (StructName(r), ResourceSchema(r.fields)));
    LaterWriteWins(("ErrorResponse", ErrorSchema), later, (StructName(r), ResourceSchema(r.fields)));
    NotTheErrorSchema(sorted, ("ErrorResponse", Write(map[], es)["ErrorResponse"]));
  }

  /** What error responses refer to is the error schema exactly when no resource's type is
      itself called ErrorResponse. */
  lemma ErrorSchemaKeptExactly(rs: seq<ApiResource>)
    ensures "ErrorResponse" in SpecOf(rs).schemas
    ensures SpecOf(rs).schemas["ErrorResponse"] == ErrorSchema
            <==> forall r :: r in rs ==> StructName(r) != "ErrorResponse"
  {
    SchemaPresent(rs, ("ErrorResponse", ErrorSchema));
    if r :| r in rs && StructName(r) == "ErrorResponse" {
      ErrorWrittenLater(rs, r);
    } else {
      ErrorOnlyFirst(rs);
      LastWriteStays(map[], Entries(rs), "ErrorResponse");
    }
  }

  // ----- Order of the inputs ------------------------------------------------

  /** Main result: the order in which resources are given does not matter. */
  lemma ResourceOrderIrrelevant(rs: seq<ApiResource>, ts: seq<ApiResource>)
    requires multiset(rs) == multiset(ts) && DistinctKeys(rs, NameOf()) && DistinctKeys(ts, NameOf())
    ensures SpecOf(rs) == SpecOf(ts)
  {
    SortForgetsOrder(rs, ts, NameOf());
  }

  /** The same resource with its endpoints listed in another order. */
  ghost predicate Reordered(r: ApiResource, t: ApiResource) {
    t.name == r.name && t.version == r.version && t.fields == r.fields && t.endpoints.at == r.endpoints.at
  }

  /** Two actions whose input schemas have the same name and differ. */
  ghost predicate Clash(r: ApiResource, a: string, b: string) {
    TakesInput(r, a) && TakesInput(r, b) && ToPascalCase(a) == ToPascalCase(b)
      && InputSchemaOf(r, a) != InputSchemaOf(r, b)
  }

  ghost predicate NoClash(r: ApiResource) {
    forall a, b :: !Clash(r, a, b)
  }

  lemma ReorderedClash(r: ApiResource, t: ApiResource)
    requires Reordered(r, t) && NoClash(r)
    ensures NoClash(t)
  {
    forall a, b
      ensures !Clash(t, a, b)
    {
      assert !Clash(r, a, b);
    }
  }

  lemma SameInputName(r: ApiResource, a: string, b: string)
    ensures InputName(r, a) == InputName(r, b) <==> ToPascalCase(a) == ToPascalCase(b)
  {
    var s, p, q := StructName(r), ToPascalCase(a), ToPascalCase(b);
    if InputName(r, a) == InputName(r, b) {
      assert (s + p + "Input")[|s|..|s| + |p|] == p && (s + q + "Input")[|s|..|s| + |q|] == q;
    }
  }

  lemma {:induction false} InputsWritten(m: map<string, Schema>, r: ApiResource, t: ApiResource, key: string)
    requires Reordered(r, t) && NoClash(r)
    ensures key in Write(m, InputEntries(r, r.endpoints.keys)) <==> key in Write(m, InputEntries(t, t.endpoints.keys))
    ensures key in Write(m, InputEntries(r, r.endpoints.keys)) ==>
              Write(m, InputEntries(r, r.endpoints.keys))[key] == Write(m, InputEntries(t, t.endpoints.keys))[key]
  {
    var es, fs := InputEntries(r, r.endpoints.keys), InputEntries(t, t.endpoints.keys);
    LastWriteStays(m, es, key);
    LastWriteStays(m, fs, key);
    if i: nat :| IsLast(es, i, key) {
      var a := InputFrom(r, r.endpoints.keys, es[i]);
      MatchingInput(r, t, a, es[i]);
    } else if j: nat :| IsLast(fs, j, key) {
      var b := InputFrom(t, t.endpoints.keys, fs[j]);
      ReorderedClash(r, t);
      MatchingInput(t, r, b, fs[j]);
    }
  }

  /** An input of one order is the last write to its name in the other, up to its value. */
  lemma {:induction false} MatchingInput(r: ApiResource, t: ApiResource, a: string, entry: (string, Schema))
    requires Reordered(r, t) && NoClash(r)
    requires TakesInput(r, a) && entry == (InputName(r, a), InputSchemaOf(r, a))
    ensures var fs := InputEntries(t, t.endpoints.keys);
            exists j: nat :: IsLast(fs, j, entry.0) && fs[j].1 == entry.1
  {
    var fs := InputEntries(t, t.endpoints.keys);
    assert a in Elements(t.endpoints.keys);
    InputListed(t, t.endpoints.keys, a);
    var k :| 0 <= k < |fs| && fs[k] == entry;
    var j := SomeoneIsLast(fs, k);
    var b := InputFrom(t, t.endpoints.keys, fs[j]);
    SameInputName(r, a, b);
    assert !Clash(r, a, b);
  }

  lemma {:induction false} InputOrderIrrelevant(m: map<string, Schema>, r: ApiResource, t: ApiResource)
    requires Reordered(r, t) && NoClash(r)
    ensures Write(m, SchemaEntries(r)) == Write(m, SchemaEntries(t))
  {
    var own := (StructName(r), ResourceSchema(r.fields));
    WriteAppend(m, [own], InputEntries(r, r.endpoints.keys));
    WriteAppend(m, [own], InputEntries(t, t.endpoints.keys));
    var n := Write(m, [own]);
    forall key
      ensures key in Write(n, InputEntries(r, r.endpoints.keys)) <==> key in Write(n, InputEntries(t, t.endpoints.keys))
      ensures key in Write(n, InputEntries(r, r.endpoints.keys)) ==>
                Write(n, InputEntries(r, r.endpoints.keys))[key] == Write(n, InputEntries(t, t.endpoints.keys))[key]
    {
      InputsWritten(n, r, t, key);
    }
  }

  lemma {:induction false} DistinctCount(s: seq<string>, x: string)
    requires Distinct(s)
    ensures multiset(s)[x] == if x in s then 1 else 0
  {
    if s != [] {
      DistinctCount(s[1..], x);
      assert s == [s[0]] + s[1..];
    }
  }

  lemma SameActionOrder(r: ApiResource, t: ApiResource)
    requires Reordered(r, t)
    ensures SortBy(r.endpoints.keys, Itself()) == SortBy(t.endpoints.keys, Itself())
  {
    var s, u := r.endpoints.keys, t.endpoints.keys;
    forall x
      ensures multiset(s)[x] == multiset(u)[x]
    {
      DistinctCount(s, x);
      DistinctCount(u, x);
      assert x in s <==> x in Elements(s);
      assert x in u <==> x in Elements(u);
    }
    assert multiset(s) == multiset(u);
    SortForgetsOrder(s, u, Itself());
  }

  lemma {:induction false} SameOperations(r: ApiResource, t: ApiResource, actions: seq<string>)
    requires Reordered(r, t)
    ensures OperationEntries(r, actions) == OperationEntries(t, actions)
  {
    if actions != [] {
      SameOperations(r, t, actions[1..]);
    }
  }

  /** Reordered one by one. */
  ghost predicate AllReordered(rs: seq<ApiResource>, ts: seq<ApiResource>) {
    |rs| == |ts| && forall i :: 0 <= i < |rs| ==> Reordered(rs[i], ts[i]) && NoClash(rs[i])
  }

  lemma {:induction false} InsertReordered(r: ApiResource, t: ApiResource, rs: seq<ApiResource>, ts: seq<ApiResource>)
    requires Reordered(r, t) && NoClash(r) && AllReordered(rs, ts)
    ensures AllReordered(Insert(r, rs, NameOf()), Insert(t, ts, NameOf()))
  {
    if rs != [] && TextLess(rs[0].name, r.name) {
      InsertReordered(r, t, rs[1..], ts[1..]);
    }
  }

  lemma {:induction false} SortReordered(rs: seq<ApiResource>, ts: seq<ApiResource>)
    requires AllReordered(rs, ts)
    ensures AllReordered(SortBy(rs, NameOf()), SortBy(ts, NameOf()))
  {
    if rs != [] {
      SortReordered(rs[1..], ts[1..]);
      InsertReordered(rs[0], ts[0], SortBy(rs[1..], NameOf()), SortBy(ts[1..], NameOf()));
    }
  }

  lemma {:induction false} SchemasReordered(m: map<string, Schema>, rs: seq<ApiResource>, ts: seq<ApiResource>)
    requires AllReordered(rs, ts)
    ensures Write(m, AllSchemas(rs)) == Write(m, AllSchemas(ts))
    decreases |rs|
  {
    if rs != [] {
      WriteAppend(m, SchemaEntries(rs[0]), AllSchemas(rs[1..]));
      WriteAppend(m, SchemaEntries(ts[0]), AllSchemas(ts[1..]));
      InputOrderIrrelevant(m, rs[0], ts[0]);
      SchemasReordered(Write(m, SchemaEntries(rs[0])), rs[1..], ts[1..]);
    }
  }

  lemma {:induction false} OperationsReordered(rs: seq<ApiResource>, ts: seq<ApiResource>)
    requires AllReordered(rs, ts)
    ensures AllOperations(rs) == AllOperations(ts)
  {
    if rs != [] {
      OperationsReordered(rs[1..], ts[1..]);
      SameActionOrder(rs[0], ts[0]);
      SameOperations(rs[0], ts[0], SortBy(rs[0].endpoints.keys, Itself()));
    }
  }

  /** Main result: nor does the order of endpoints, as long as no two differing input schemas
      of a resource get the same name. */
  lemma EndpointOrderIrrelevant(rs: seq<ApiResource>, ts: seq<ApiResource>)
    requires AllReordered(rs, ts)
    ensures SpecOf(rs) == SpecOf(ts)
  {
    var sorted, resorted := SortBy(rs, NameOf()), SortBy(ts, NameOf());
    SortReordered(rs, ts);
    OperationsReordered(sorted, resorted);
    var error := [("ErrorResponse", ErrorSchema)];
    WriteAppend(map[], error, AllSchemas(sorted));
    WriteAppend(map[], error, AllSchemas(resorted));
    SchemasReordered(Write(map[], error), sorted, resorted);
  }

  function Without(s: seq<string>, a: string): seq<string> {
    if s == [] then [] else (if s[0] == a then [] else [s[0]]) + Without(s[1..], a)
  }

  lemma {:induction false} WithoutElements(s: seq<string>, a: string)
    requires Distinct(s)
    ensures Distinct(Without(s, a)) && forall x :: x in Without(s, a) <==> x in s && x != a
  {
    if s != [] {
      var rest := Without(s[1..], a);
      WithoutElements(s[1..], a);
      assert s[0] !in s[1..];
      assert Distinct([s[0]] + rest);
    }
  }

  /** The resource with action `a` listed last. */
  function MovedLast(r: ApiResource, a: string): (t: ApiResource)
    requires a in r.endpoints.at
    ensures Reordered(r, t) && t.endpoints.keys == Without(r.endpoints.keys, a) + [a]
  {
    var keys := Without(r.endpoints.keys, a) + [a];
    MovedIsValid(r, a);
    r.(endpoints := RawIndexMap(keys, r.endpoints.at))
  }

  lemma {:induction false} MovedIsValid(r: ApiResource, a: string)
    requires a in r.endpoints.at
    ensures RawIndexMap(Without(r.endpoints.keys, a) + [a], r.endpoints.at).Valid()
  {
    var s := r.endpoints.keys;
    WithoutElements(s, a);
    DistinctAppend(Without(s, a), a);
    assert a in Elements(s);
    forall x
      ensures x in Elements(Without(s, a) + [a]) <==> x in r.endpoints.at
    {
      assert x in Elements(s) <==> x in r.endpoints.at.Keys;
    }
  }

  lemma {:induction false} InputsAppend(r: ApiResource, a: seq<string>, b: seq<string>)
    ensures InputEntries(r, a + b) == InputEntries(r, a) + InputEntries(r, b)
  {
    if a == [] {
      assert a + b == b;
    } else {
      assert (a + b)[1..] == a[1..] + b;
      InputsAppend(r, a[1..], b);
    }
  }

  lemma LastActionWins(r: ApiResource, a: string)
    requires TakesInput(r, a)
    ensures InputName(r, a) in SpecOf([MovedLast(r, a)]).schemas
    ensures SpecOf([MovedLast(r, a)]).schemas[InputName(r, a)] == InputSchemaOf(r, a)
  {
    var t := MovedLast(r, a);
    var es := Entries([t]);
    var entry := (InputName(r, a), InputSchemaOf(r, a));
    OneResource(t);
    InputsAppend(t, Without(r.endpoints.keys, a), [a]);
    assert InputEntries(t, [a]) == [entry];
    var n := |es| - 1;
    assert es[n] == entry;
    assert IsLast(es, n, entry.0);
    LastWriteStays(map[], es, entry.0);
  }

  lemma OneResource(t: ApiResource)
    ensures SortBy([t], NameOf()) == [t]
    ensures Entries([t]) == [("ErrorResponse", ErrorSchema)] + SchemaEntries(t)
  {
    assert [t][1..] == [];
    assert AllSchemas([t]) == SchemaEntries(t) + AllSchemas([]);
  }

  /** Main result: for one resource, no reordering of its endpoints changes the document
      exactly when it has no clash. */
  lemma EndpointOrderIrrelevantExactly(r: ApiResource)
    ensures (forall t :: Reordered(r, t) ==> SpecOf([t]) == SpecOf([r])) <==> NoClash(r)
  {
    if NoClash(r) {
      forall t | Reordered(r, t)
        ensures SpecOf([t]) == SpecOf([r])
      {
        EndpointOrderIrrelevant([r], [t]);
      }
    }
    forall a, b | Clash(r, a, b)
      ensures SpecOf([MovedLast(r, a)]) != SpecOf([MovedLast(r, b)])
    {
      SameInputName(r, a, b);
      LastActionWins(r, a);
      LastActionWins(r, b);
    }
    if a, b :| Clash(r, a, b) {
      assert Reordered(r, MovedLast(r, a)) && Reordered(r, MovedLast(r, b));
    }
  }

  lemma {:induction false} TrailingUnderscore(s: string, atStart: bool)
    ensures Pascal(s + "_", atStart) == Pascal(s, atStart)
  {
    if s == "" {
      assert s + "_" == "_" && "_"[1..] == "";
    } else {
      assert (s + "_")[1..] == s[1..] + "_";
      TrailingUnderscore(s[1..], s[0] == '_');
    }
  }

  /** The names of an input's fields that the resource has. */
  function KnownInputs(r: ApiResource, a: string): set<string>
    requires TakesInput(r, a)
  {
    set f | f in r.endpoints.at[a].input.value && f in r.fields.at
  }

  function Demands(r: ApiResource, a: string): seq<string>
    requires TakesInput(r, a)
  {
    if a == "create" then RequiredAmong(r.fields.at, r.endpoints.at[a].input.value) else []
  }

  /** What makes two inputs of one name clash: other known fields, or other demands. */
  lemma ClashExactly(r: ApiResource, a: string, b: string)
    requires TakesInput(r, a) && TakesInput(r, b) && ToPascalCase(a) == ToPascalCase(b)
    ensures Clash(r, a, b) <==> KnownInputs(r, a) != KnownInputs(r, b) || Demands(r, a) != Demands(r, b)
  {
    var p, q := InputSchemaOf(r, a).properties, InputSchemaOf(r, b).properties;
    assert p.Keys == KnownInputs(r, a) && q.Keys == KnownInputs(r, b);
    if p.Keys == q.Keys {
      assert p == q;
    }
  }

  lemma {:induction false} RequiredExactly(fields: map<string, FieldDoc>, names: seq<string>)
    ensures RequiredAmong(fields, names) != [] <==> exists f :: f in names && f in fields && fields[f].required
  {
    if names != [] {
      var n := |names| - 1;
      RequiredExactly(fields, names[..n]);
      assert names == names[..n] + [names[n]];
    }
  }

  /** Two actions whose names differ by a trailing underscore and that take the same input
      clash exactly when one of its fields is required: only `create` demands it. */
  lemma CreateUnderscoreClashes(r: ApiResource)
    requires TakesInput(r, "create") && TakesInput(r, "create" + "_")
    requires r.endpoints.at["create"].input == r.endpoints.at["create" + "_"].input
    ensures Clash(r, "create", "create" + "_") <==>
            exists f :: f in KnownInputs(r, "create") && r.fields.at[f].required
  {
    TrailingUnderscore("create", true);
    ClashExactly(r, "create", "create" + "_");
    RequiredExactly(r.fields.at, r.endpoints.at["create"].input.value);
    assert |"create" + "_"| == 7;
  }
}
