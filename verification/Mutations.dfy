/** The INSERT and UPDATE compilers: generated declarations, statements and argument lists,
    and what running them does to a row. */
module Mutations {
  import opened Prelude
  import opened Values
  import opened Schema
  import opened OrderBy

  // ----- Request bodies ----------------------------------------------------

  datatype Json = JsonNull | JsonDoc(doc: string)

  type Body = map<string, Json>

  datatype StoreError =
    | InvalidValue(field: string)
    | RequiredField(field: string)
    | EmptyUpdate
    | NotFound
    | Rejected

  /** Absent and null both parse to NULL; other documents must fit the field's type. */
  function ParseOptional(d: Dialect, schema: IndexMap<FieldSchema>, body: Body, field: string)
    : Result<Value, StoreError>
    requires field in schema.at
  {
    if field !in body || body[field] == JsonNull then Ok(Null)
    else
      match d.parseJson(schema.at[field].fieldType, body[field].doc)
      case None => Err(InvalidValue(field))
      case Some(v) => Ok(v)
  }

  // ----- Declarations and variable capture ---------------------------------

  /** What a local variable of the generated code is meant to hold. */
  datatype Source = RowId | PresentFlag(field: string) | ParsedValue(field: string) | Now

  datatype Decl = Decl(name: string, source: Source)

  /** Whether computing the variable reads the request body. */
  predicate ReadsBody(s: Source) {
    s.PresentFlag? || s.ParsedValue?
  }

  function Reads(decls: seq<Decl>): (s: seq<bool>)
    ensures |s| == |decls|
  {
    seq(|decls|, i requires 0 <= i < |decls| => ReadsBody(decls[i].source))
  }

  function Names(decls: seq<Decl>): (s: seq<string>)
    ensures |s| == |decls|
  {
    seq(|decls|, i requires 0 <= i < |decls| => decls[i].name)
  }

  /** The variables after the declarations ran, a repeated name shadowing the earlier one. The
      ones that read the request body look it up by its name, `data`: behind a variable of that
      name they would read a column's value as a body, which does not compile. */
  function Bind(names: seq<string>, fromBody: seq<bool>, values: seq<Value>): Option<map<string, Value>>
    requires |names| == |fromBody| == |values|
  {
    if names == [] then Some(map[])
    else
      var n := |names| - 1;
      match Bind(names[..n], fromBody[..n], values[..n])
      case None => None
      case Some(env) => if fromBody[n] && "data" in env then None else Some(env[names[n] := values[n]])
  }

  /** The arguments name the variables in declaration order. */
  function Arguments(names: seq<string>, fromBody: seq<bool>, values: seq<Value>): (args: Option<seq<Value>>)
    requires |names| == |fromBody| == |values|
    ensures args.Some? ==> |args.value| == |names|
  {
    match Bind(names, fromBody, values)
    case None => None
    case Some(env) => Some(seq(|names|, i requires 0 <= i < |names| => if names[i] in env then env[names[i]] else Null))
  }

  /** No declaration that reads the body comes behind a variable called `data`. */
  predicate BodyInScope(names: seq<string>, fromBody: seq<bool>)
    requires |names| == |fromBody|
  {
    forall i, j :: 0 <= i < j < |names| && names[i] == "data" ==> !fromBody[j]
  }

  /** No variable is captured: neither another variable nor the body. */
  ghost predicate Uncaptured(names: seq<string>, fromBody: seq<bool>)
    requires |names| == |fromBody|
  {
    Distinct(names) && BodyInScope(names, fromBody)
  }

  lemma BodyInScopeStep(names: seq<string>, fromBody: seq<bool>)
    requires |names| == |fromBody| > 0
    ensures var n := |names| - 1;
            BodyInScope(names, fromBody) <==>
            BodyInScope(names[..n], fromBody[..n]) && (fromBody[n] ==> "data" !in names[..n])
  {
    var n := |names| - 1;
    if BodyInScope(names[..n], fromBody[..n]) && (fromBody[n] ==> "data" !in names[..n]) {
      forall i, j | 0 <= i < j < |names| && names[i] == "data"
        ensures !fromBody[j]
      {
        assert names[..n][i] == "data";
        assert j < n ==> fromBody[..n][j] == fromBody[j];
      }
    }
    if BodyInScope(names, fromBody) {
      assert forall i, j :: 0 <= i < j < n && names[..n][i] == "data" ==> fromBody[..n][j] == fromBody[j];
    }
  }

  lemma {:induction false} BindSucceedsExactly(names: seq<string>, fromBody: seq<bool>, values: seq<Value>)
    requires |names| == |fromBody| == |values|
    ensures Bind(names, fromBody, values).Some? <==> BodyInScope(names, fromBody)
    ensures Bind(names, fromBody, values).Some? ==> forall x :: x in Bind(names, fromBody, values).value <==> x in names
  {
    if names != [] {
      var n := |names| - 1;
      BindSucceedsExactly(names[..n], fromBody[..n], values[..n]);
      BodyInScopeStep(names, fromBody);
      assert names == names[..n] + [names[n]];
    }
  }

  lemma {:induction false} BindHoldsLast(names: seq<string>, fromBody: seq<bool>, values: seq<Value>, i: nat)
    requires |names| == |fromBody| == |values| && i < |names| && Bind(names, fromBody, values).Some?
    requires forall j :: i < j < |names| && names[j] == names[i] ==> values[j] == values[i]
    ensures names[i] in Bind(names, fromBody, values).value
            && Bind(names, fromBody, values).value[names[i]] == values[i]
  {
    var n := |names| - 1;
    if i < n && names[n] != names[i] {
      var front := names[..n];
      assert front[i] == names[i] && values[..n][i] == values[i];
      assert forall j :: i < j < n ==> front[j] == names[j] && values[..n][j] == values[j];
      BindHoldsLast(front, fromBody[..n], values[..n], i);
    }
  }

  /** Every variable is passed its own value when the body is in scope and variables of one name
      have one value. */
  lemma AgreeingArguments(names: seq<string>, fromBody: seq<bool>, values: seq<Value>)
    requires |names| == |fromBody| == |values| && BodyInScope(names, fromBody)
    requires forall i, j :: 0 <= i < j < |names| && names[i] == names[j] ==> values[i] == values[j]
    ensures Arguments(names, fromBody, values) == Some(values)
  {
    BindSucceedsExactly(names, fromBody, values);
    var args := Arguments(names, fromBody, values).value;
    forall i | 0 <= i < |names|
      ensures args[i] == values[i]
    {
      BindHoldsLast(names, fromBody, values, i);
    }
    assert args == values;
  }

  /** Without capture every variable is passed its own value. */
  lemma UncapturedArguments(names: seq<string>, fromBody: seq<bool>, values: seq<Value>)
    requires |names| == |fromBody| == |values| && Uncaptured(names, fromBody)
    ensures Arguments(names, fromBody, values) == Some(values)
  {
    AgreeingArguments(names, fromBody, values);
  }

  /** Two variables of one name are passed the same value, if any. */
  lemma SharedArguments(names: seq<string>, fromBody: seq<bool>, values: seq<Value>, i: nat, j: nat)
    requires |names| == |fromBody| == |values| && i < |names| && j < |names| && names[i] == names[j]
    requires values[i] != values[j]
    ensures Arguments(names, fromBody, values) != Some(values)
  {
  }

  // ----- UPDATE ------------------------------------------------------------

  datatype SetClause =
    | SetIfPresent(column: string, present: nat, value: nat)
    | SetTo(column: string, value: nat)

  datatype UpdateCode = UpdateCode(decls: seq<Decl>, sets: seq<SetClause>, guarded: bool)

  predicate IsMutable(f: FieldSchema) {
    !f.primary && !f.generated && !f.transient
  }

  function MutableAmong(names: seq<string>, at: map<string, FieldSchema>): (s: seq<string>)
    ensures forall f :: f in s <==> f in names && f in at && IsMutable(at[f])
  {
    if names == [] then []
    else
      var front, last := names[..|names| - 1], names[|names| - 1];
      assert names == front + [last];
      MutableAmong(front, at) + if last in at && IsMutable(at[last]) then [last] else []
  }

  lemma {:induction false} MutableGrows(names: seq<string>, at: map<string, FieldSchema>, i: nat)
    requires i < |names|
    ensures MutableAmong(names[..i + 1], at)
            == MutableAmong(names[..i], at) + if names[i] in at && IsMutable(at[names[i]]) then [names[i]] else []
  {
    assert names[..i + 1][..i] == names[..i];
  }

  /** The fields an update may change, in schema order. */
  function MutableFields(r: Resource): seq<string> {
    MutableAmong(r.schema.keys, r.schema.at)
  }

  lemma KeysKnown(r: Resource)
    ensures forall n :: n in r.schema.keys <==> n in r.schema.at
  {
    assert forall n :: n in r.schema.keys <==> n in Elements(r.schema.keys);
  }

  predicate Stamps(r: Resource) {
    "updated_at" in r.schema.at && r.schema.at["updated_at"].generated
      && r.schema.at["updated_at"].fieldType == TimestampType
  }

  function PresentDecl(f: string): Decl {
    Decl(SanitizeIdentifier(f) + "_present", PresentFlag(f))
  }

  function ValueDecl(f: string): Decl {
    Decl(SanitizeIdentifier(f), ParsedValue(f))
  }

  /** The id parameter, then a presence flag and a value per field. */
  function FieldDecls(fields: seq<string>): (s: seq<Decl>)
    ensures |s| == 2 * |fields| + 1
  {
    if fields == [] then [Decl("id", RowId)]
    else
      var f := fields[|fields| - 1];
      FieldDecls(fields[..|fields| - 1]) + [PresentDecl(f), ValueDecl(f)]
  }

  /** The clause of the k-th field: its presence flag and value are placeholders 2k + 2 and 2k + 3. */
  function FieldSet(f: string, k: nat): SetClause {
    SetIfPresent(f, 2 * k + 2, 2 * k + 3)
  }

  function StampSet(fieldCount: nat): SetClause {
    SetTo("updated_at", 2 * fieldCount + 2)
  }

  function FieldSets(fields: seq<string>): (s: seq<SetClause>)
    ensures |s| == |fields|
  {
    if fields == [] then []
    else
      var n := |fields| - 1;
      FieldSets(fields[..n]) + [FieldSet(fields[n], n)]
  }

  lemma {:induction false} AppendField(fields: seq<string>, f: string)
    ensures FieldDecls(fields + [f]) == FieldDecls(fields) + [PresentDecl(f), ValueDecl(f)]
    ensures FieldSets(fields + [f]) == FieldSets(fields) + [FieldSet(f, |fields|)]
  {
    assert (fields + [f])[..|fields|] == fields;
  }

  function UpdateFor(r: Resource): UpdateCode {
    var fields := MutableFields(r);
    UpdateCode(
      FieldDecls(fields) + (if Stamps(r) then [Decl("updated_at", Now)] else []),
      FieldSets(fields) + (if Stamps(r) then [StampSet(|fields|)] else []),
      fields != [])
  }

  lemma FieldSetIs(f: string, k: nat, index: nat)
    requires index == 2 * k + 2
    ensures SetIfPresent(f, index, index + 1) == FieldSet(f, k)
  {
  }

  lemma StampSetIs(k: nat, index: nat)
    requires index == 2 * k + 2
    ensures SetTo("updated_at", index) == StampSet(k)
  {
  }

  /** Emits one presence flag, one value and one SET clause per mutable field. */
  method EmitFields(r: Resource) returns (decls: seq<Decl>, sets: seq<SetClause>, index: nat)
    ensures decls == FieldDecls(MutableFields(r)) && sets == FieldSets(MutableFields(r))
    ensures index == 2 * |MutableFields(r)| + 2
  {
    KeysKnown(r);
    var keys := r.schema.keys;
    decls, sets, index := [Decl("id", RowId)], [], 2;
    ghost var fields: seq<string> := [];
    for i := 0 to |keys|
      invariant fields == MutableAmong(keys[..i], r.schema.at)
      invariant decls == FieldDecls(fields) && sets == FieldSets(fields)
      invariant index == 2 * |fields| + 2
    {
      var name := keys[i];
      MutableGrows(keys, r.schema.at, i);
      var field := r.schema.at[name];
      if field.primary || field.generated || field.transient {
        continue;
      }
      AppendField(fields, name);
      FieldSetIs(name, |fields|, index);
      decls := decls + [PresentDecl(name), ValueDecl(name)];
      sets := sets + [SetIfPresent(name, index, index + 1)];
      index := index + 2;
      fields := fields + [name];
    }
    assert keys[..|keys|] == keys;
  }

  method GenerateUpdateBody(r: Resource) returns (code: UpdateCode)
    ensures code == UpdateFor(r)
  {
    var decls, sets, index := EmitFields(r);
    var guarded := sets != [];
    if "updated_at" in r.schema.at {
      var updatedAt := r.schema.at["updated_at"];
      if updatedAt.generated && updatedAt.fieldType == TimestampType {
        StampSetIs(|MutableFields(r)|, index);
        decls := decls + [Decl("updated_at", Now)];
        sets := sets + [SetTo("updated_at", index)];
      }
    }
    code := UpdateCode(decls, sets, guarded);
  }

  /** What an update request carries, once its values are parsed. */
  datatype Payload = Payload(id: nat, values: map<string, Value>, now: int)

  function Meaning(s: Source, p: Payload): Value {
    match s
    case RowId => Uuid(p.id)
    case PresentFlag(f) => Boolean(f in p.values)
    case ParsedValue(f) => if f in p.values then p.values[f] else Null
    case Now => Timestamp(p.now)
  }

  function Meanings(decls: seq<Decl>, p: Payload): (s: seq<Value>)
    ensures |s| == |decls|
  {
    seq(|decls|, i requires 0 <= i < |decls| => Meaning(decls[i].source, p))
  }

  function UpdateArgs(decls: seq<Decl>, p: Payload): (args: Option<seq<Value>>)
    ensures args.Some? ==> |args.value| == |decls|
  {
    Arguments(Names(decls), Reads(decls), Meanings(decls, p))
  }

  lemma {:induction false} FieldDeclAt(fields: seq<string>, k: nat)
    requires k < |fields|
    ensures FieldDecls(fields)[2 * k + 1] == PresentDecl(fields[k])
    ensures FieldDecls(fields)[2 * k + 2] == ValueDecl(fields[k])
  {
    if k < |fields| - 1 {
      FieldDeclAt(fields[..|fields| - 1], k);
    }
  }

  ghost predicate DistinctSources(decls: seq<Decl>) {
    forall i, j :: 0 <= i < j < |decls| ==> decls[i].source != decls[j].source
  }

  /** Field declarations are about the given fields only. */
  lemma {:induction false} FieldDeclsAbout(fields: seq<string>, d: Decl)
    requires d in FieldDecls(fields)
    ensures d.source == RowId || (d.source.PresentFlag? && d.source.field in fields)
            || (d.source.ParsedValue? && d.source.field in fields)
  {
    if fields != [] {
      var n := |fields| - 1;
      if d in FieldDecls(fields[..n]) {
        FieldDeclsAbout(fields[..n], d);
      }
    }
  }

  lemma {:induction false} FieldSourcesDistinct(fields: seq<string>)
    requires Distinct(fields)
    ensures DistinctSources(FieldDecls(fields))
  {
    if fields != [] {
      var n := |fields| - 1;
      var front := FieldDecls(fields[..n]);
      FieldSourcesDistinct(fields[..n]);
      forall i | 0 <= i < |front|
        ensures front[i].source != PresentFlag(fields[n]) && front[i].source != ParsedValue(fields[n])
      {
        FieldDeclsAbout(fields[..n], front[i]);
      }
    }
  }

  /** No two declared variables are meant to hold the same thing. */
  lemma SourcesDistinct(r: Resource)
    ensures DistinctSources(UpdateFor(r).decls)
  {
    var fields := MutableFields(r);
    MutableFieldsDistinct(r);
    FieldSourcesDistinct(fields);
    var decls := FieldDecls(fields);
    forall i | 0 <= i < |decls|
      ensures decls[i].source != Now
    {
      FieldDeclsAbout(fields, decls[i]);
    }
  }

  lemma MutableFieldsDistinct(r: Resource)
    ensures Distinct(MutableFields(r))
  {
    MutableAmongDistinct(r.schema.keys, r.schema.at);
  }

  lemma {:induction false} MutableAmongDistinct(names: seq<string>, at: map<string, FieldSchema>)
    requires Distinct(names)
    ensures Distinct(MutableAmong(names, at))
  {
    if names != [] {
      MutableAmongDistinct(names[..|names| - 1], at);
    }
  }

  /** A payload under which two different sources mean different values. */
  lemma TellApart(s: Source, t: Source) returns (p: Payload)
    requires s != t
    ensures Meaning(s, p) != Meaning(t, p)
  {
    var only := if s.PresentFlag? && t.PresentFlag? then map[s.field := Boolean(true)]
                else if s.ParsedValue? && t.ParsedValue? then map[s.field := Boolean(true)]
                else map[];
    p := Payload(0, only, 0);
  }

  /** Exactly when an emitted UPDATE is wired correctly: every placeholder carries what its
      clause means, for every payload, if and only if the generated variable names are distinct
      and none called `data` stands in front of a declaration that reads the body. */
  lemma UpdateVariablesExact(r: Resource)
    ensures var decls := UpdateFor(r).decls;
            Uncaptured(Names(decls), Reads(decls)) <==> forall p :: UpdateArgs(decls, p) == Some(Meanings(decls, p))
  {
    var decls := UpdateFor(r).decls;
    var names := Names(decls);
    if Uncaptured(names, Reads(decls)) {
      forall p {
        UncapturedArguments(names, Reads(decls), Meanings(decls, p));
      }
    } else if i, j :| 0 <= i < j < |names| && names[i] == names[j] {
      SourcesDistinct(r);
      var p := TellApart(decls[i].source, decls[j].source);
      SharedArguments(names, Reads(decls), Meanings(decls, p), i, j);
    } else {
      var p := Payload(0, map[], 0);
      BindSucceedsExactly(names, Reads(decls), Meanings(decls, p));
      assert UpdateArgs(decls, p) == None;
    }
  }

  /** A mutable field called `data` with another behind it is such a case. */
  lemma DataInFrontCaptures(r: Resource, i: nat)
    requires i < |MutableFields(r)| - 1 && SanitizeIdentifier(MutableFields(r)[i]) == "data"
    ensures forall p :: UpdateArgs(UpdateFor(r).decls, p) == None
  {
    var fields, decls := MutableFields(r), UpdateFor(r).decls;
    FieldDeclAt(fields, i);
    FieldDeclAt(fields, i + 1);
    var first, second := 2 * i + 2, 2 * i + 3;
    assert Names(decls)[first] == "data" && Reads(decls)[second];
    forall p {
      BindSucceedsExactly(Names(decls), Reads(decls), Meanings(decls, p));
    }
  }

  ghost predicate Plain(s: string) {
    forall i :: 0 <= i < |s| ==> ('a' <= s[i] <= 'z') || s[i] == '_'
  }

  /** Such a clash needs nothing exotic: the presence flag of a field `f` and the value of a
      field `f_present` are one variable, whatever `f` is. */
  lemma PresentSuffixClashes(f: string)
    requires f != ""
    ensures PresentDecl(f).name == ValueDecl(f + "_present").name
  {
    SuffixSurvives(f, "_present");
  }

  lemma SuffixSurvives(f: string, suffix: string)
    requires f != "" && Plain(suffix)
    ensures SanitizeIdentifier(f + suffix) == SanitizeIdentifier(f) + suffix
  {
    SanitizeCharsConcat(f, suffix);
    SanitizeCharsKeepsPlain(suffix);
    var bare, full := SanitizeChars(f), SanitizeChars(f + suffix);
    assert full == bare + suffix && full[0] == bare[0];
    assert "_" + (bare + suffix) == ("_" + bare) + suffix;
  }

  lemma {:induction false} SanitizeCharsConcat(a: string, b: string)
    ensures SanitizeChars(a + b) == SanitizeChars(a) + SanitizeChars(b)
  {
    if a == "" {
      assert a + b == b;
    } else {
      assert (a + b)[1..] == a[1..] + b;
      SanitizeCharsConcat(a[1..], b);
    }
  }

  lemma {:induction false} SanitizeCharsKeepsPlain(s: string)
    requires Plain(s)
    ensures SanitizeChars(s) == s
  {
    if s != "" {
      SanitizeCharsKeepsPlain(s[1..]);
    }
  }

  // ----- Running an UPDATE on a row ----------------------------------------

  function SetValue(s: SetClause, args: seq<Value>, row: Row): Value {
    match s
    case SetIfPresent(c, present, value) =>
      if Param(args, present) == Boolean(true) then Param(args, value) else Col(row, c)
    case SetTo(c, value) => Param(args, value)
  }

  /** All right-hand sides read the row as it was. */
  function ApplySets(sets: seq<SetClause>, args: seq<Value>, row: Row): Row {
    if sets == [] then row
    else
      var n := |sets| - 1;
      ApplySets(sets[..n], args, row)[sets[n].column := SetValue(sets[n], args, row)]
  }

  /** What the update promises: present mutable columns take the payload's value, the stamp is
      refreshed, everything else stays. */
  function UpdatedColumn(r: Resource, p: Payload, row: Row, column: string): Value {
    if column in MutableFields(r) then (if column in p.values then p.values[column] else Col(row, column))
    else if column == "updated_at" && Stamps(r) then Timestamp(p.now)
    else Col(row, column)
  }

  ghost predicate IsUpdated(r: Resource, p: Payload, row: Row, result: Row) {
    result.Keys == row.Keys && forall c :: c in row ==> result[c] == UpdatedColumn(r, p, row, c)
  }

  /** Placeholders 2k + 2 and 2k + 3 carry the presence and the value of field k. */
  ghost predicate FieldsBound(fields: seq<string>, args: seq<Value>, p: Payload) {
    forall k :: 0 <= k < |fields| ==> FieldsBoundAt(fields, args, p, k)
  }

  ghost predicate FieldsBoundAt(fields: seq<string>, args: seq<Value>, p: Payload, k: nat)
    requires k < |fields|
  {
    && Param(args, 2 * k + 2) == Boolean(fields[k] in p.values)
    && Param(args, 2 * k + 3) == Meaning(ParsedValue(fields[k]), p)
  }

  function FieldEffect(fields: seq<string>, p: Payload, row: Row, c: string): Value {
    if c in fields && c in p.values then p.values[c] else Col(row, c)
  }

  lemma {:induction false} FieldSetsEffect(fields: seq<string>, args: seq<Value>, p: Payload, row: Row, c: string)
    requires Distinct(fields) && FieldsBound(fields, args, p)
    ensures Col(ApplySets(FieldSets(fields), args, row), c) == FieldEffect(fields, p, row, c)
  {
    if fields != [] {
      var n := |fields| - 1;
      BoundFront(fields, args, p);
      FieldSetsEffect(fields[..n], args, p, row, c);
      assert fields == fields[..n] + [fields[n]];
      AppendField(fields[..n], fields[n]);
      SetLast(FieldSets(fields[..n]), FieldSet(fields[n], n), args, row, c);
      LastFieldValue(fields, args, p, row);
    }
  }

  lemma BoundFront(fields: seq<string>, args: seq<Value>, p: Payload)
    requires fields != [] && FieldsBound(fields, args, p)
    ensures FieldsBound(fields[..|fields| - 1], args, p)
  {
    var front := fields[..|fields| - 1];
    forall k | 0 <= k < |front|
      ensures FieldsBoundAt(front, args, p, k)
    {
      assert FieldsBoundAt(fields, args, p, k) && front[k] == fields[k];
    }
  }

  lemma LastFieldValue(fields: seq<string>, args: seq<Value>, p: Payload, row: Row)
    requires fields != [] && FieldsBound(fields, args, p)
    ensures var f := fields[|fields| - 1];
            SetValue(FieldSet(f, |fields| - 1), args, row) == if f in p.values then p.values[f] else Col(row, f)
  {
    assert FieldsBoundAt(fields, args, p, |fields| - 1);
  }

  lemma {:induction false} SetLast(sets: seq<SetClause>, s: SetClause, args: seq<Value>, row: Row, c: string)
    ensures Col(ApplySets(sets + [s], args, row), c)
            == if c == s.column then SetValue(s, args, row) else Col(ApplySets(sets, args, row), c)
    ensures ApplySets(sets + [s], args, row).Keys == ApplySets(sets, args, row).Keys + {s.column}
  {
    assert (sets + [s])[..|sets|] == sets;
  }

  lemma {:induction false} FieldSetsKeys(fields: seq<string>, args: seq<Value>, row: Row)
    requires forall f :: f in fields ==> f in row
    ensures ApplySets(FieldSets(fields), args, row).Keys == row.Keys
  {
    if fields != [] {
      var n := |fields| - 1;
      assert fields == fields[..n] + [fields[n]];
      FieldSetsKeys(fields[..n], args, row);
      AppendField(fields[..n], fields[n]);
      SetLast(FieldSets(fields[..n]), FieldSet(fields[n], n), args, row, "");
    }
  }

  lemma {:induction false} UpdateArgAt(fields: seq<string>, decls: seq<Decl>, p: Payload, k: nat)
    requires k < |fields| && FieldDecls(fields) <= decls
    ensures FieldsBoundAt(fields, Meanings(decls, p), p, k)
  {
    FieldDeclAt(fields, k);
    var present, value := 2 * k + 1, 2 * k + 2;
    assert decls[present] == FieldDecls(fields)[present] && decls[value] == FieldDecls(fields)[value];
    MeaningAt(decls, p, present);
    MeaningAt(decls, p, value);
  }

  /** Placeholder i + 1 is bound to declaration i. */
  lemma MeaningAt(decls: seq<Decl>, p: Payload, i: nat)
    requires i < |decls|
    ensures Param(Meanings(decls, p), i + 1) == Meaning(decls[i].source, p)
  {
  }

  lemma StampIsBound(r: Resource, p: Payload, row: Row)
    requires Stamps(r)
    ensures SetValue(StampSet(|MutableFields(r)|), Meanings(UpdateFor(r).decls, p), row) == Timestamp(p.now)
  {
    var n := 2 * |MutableFields(r)| + 1;
    assert UpdateFor(r).decls[n] == Decl("updated_at", Now);
    MeaningAt(UpdateFor(r).decls, p, n);
  }

  lemma SetsOf(r: Resource)
    ensures UpdateFor(r).sets
            == if Stamps(r) then FieldSets(MutableFields(r)) + [StampSet(|MutableFields(r)|)]
              else FieldSets(MutableFields(r))
  {
  }

  lemma UpdateBindsFields(r: Resource, p: Payload)
    ensures FieldsBound(MutableFields(r), Meanings(UpdateFor(r).decls, p), p)
  {
    forall k | 0 <= k < |MutableFields(r)|
      ensures FieldsBoundAt(MutableFields(r), Meanings(UpdateFor(r).decls, p), p, k)
    {
      UpdateArgAt(MutableFields(r), UpdateFor(r).decls, p, k);
    }
  }

  lemma {:induction false} SetsMeanColumn(r: Resource, p: Payload, args: seq<Value>, row: Row, c: string)
    requires FieldsBound(MutableFields(r), args, p)
    requires Stamps(r) ==> SetValue(StampSet(|MutableFields(r)|), args, row) == Timestamp(p.now)
    ensures Col(ApplySets(UpdateFor(r).sets, args, row), c) == UpdatedColumn(r, p, row, c)
  {
    var fields := MutableFields(r);
    MutableFieldsDistinct(r);
    FieldSetsEffect(fields, args, p, row, c);
    SetsOf(r);
    if Stamps(r) {
      SetLast(FieldSets(fields), StampSet(|fields|), args, row, c);
    }
  }

  lemma {:induction false} UpdateMeansColumn(r: Resource, p: Payload, row: Row, c: string)
    ensures Col(ApplySets(UpdateFor(r).sets, Meanings(UpdateFor(r).decls, p), row), c) == UpdatedColumn(r, p, row, c)
  {
    UpdateBindsFields(r, p);
    if Stamps(r) {
      StampIsBound(r, p, row);
    }
    SetsMeanColumn(r, p, Meanings(UpdateFor(r).decls, p), row, c);
  }

  lemma {:induction false} UpdateKeepsKeys(r: Resource, args: seq<Value>, row: Row)
    requires forall f :: f in MutableFields(r) ==> f in row
    requires Stamps(r) ==> "updated_at" in row
    ensures ApplySets(UpdateFor(r).sets, args, row).Keys == row.Keys
  {
    var fields := MutableFields(r);
    FieldSetsKeys(fields, args, row);
    SetsOf(r);
    if Stamps(r) {
      SetLast(FieldSets(fields), StampSet(|fields|), args, row, "");
    }
  }

  /** Running the emitted SET list gives exactly the promised row. */
  lemma {:induction false} UpdateMeansPayload(r: Resource, p: Payload, row: Row)
    requires Uncaptured(Names(UpdateFor(r).decls), Reads(UpdateFor(r).decls))
    requires forall f :: f in MutableFields(r) ==> f in row
    requires Stamps(r) ==> "updated_at" in row
    ensures var args := UpdateArgs(UpdateFor(r).decls, p);
            args.Some? && IsUpdated(r, p, row, ApplySets(UpdateFor(r).sets, args.value, row))
  {
    var decls, args := UpdateFor(r).decls, Meanings(UpdateFor(r).decls, p);
    UncapturedArguments(Names(decls), Reads(decls), args);
    UpdateKeepsKeys(r, args, row);
    forall c | c in row {
      UpdateMeansColumn(r, p, row, c);
    }
  }

  // ----- INSERT ------------------------------------------------------------

  /** What the running system supplies to an insert. */
  datatype Clock = Clock(now: int, today: int, uuids: string -> nat)

  function DefaultValue(ft: FieldType): Value {
    match ft
    case IntegerType => Integer(0)
    case NumberType => Number(0.0)
    case BooleanType => Boolean(false)
    case JsonType => Json("null")
    case ArrayType => Array("[]")
    case _ => Text("")
  }

  function GeneratedValue(f: FieldSchema, name: string, clock: Clock): Value {
    match f.fieldType
    case UuidType => Uuid(clock.uuids(name))
    case TimestampType => Timestamp(clock.now)
    case DateType => Date(clock.today)
    case ft => if f.IsOptional() then Null else DefaultValue(ft)
  }

  /** The value a new row gets in one column, or why the request is refused. */
  function InsertValue(d: Dialect, r: Resource, body: Body, clock: Clock, name: string): Result<Value, StoreError>
    requires name in r.schema.at
  {
    var f := r.schema.at[name];
    if f.generated then Ok(GeneratedValue(f, name, clock))
    else
      match ParseOptional(d, r.schema, body, name)
      case Err(e) => Err(e)
      case Ok(v) =>
        if v != Null then Ok(v)
        else if f.default.Some? then Ok(f.default.value)
        else if f.IsOptional() then Ok(Null)
        else Err(RequiredField(name))
  }

  function InsertValues(d: Dialect, r: Resource, body: Body, clock: Clock,
                        columns: seq<string>): (res: Result<seq<Value>, StoreError>)
    requires forall c :: c in columns ==> c in r.schema.at
    ensures res.Ok? ==> |res.value| == |columns|
  {
    if columns == [] then Ok([])
    else
      var n := |columns| - 1;
      match InsertValues(d, r, body, clock, columns[..n])
      case Err(e) => Err(e)
      case Ok(front) =>
        match InsertValue(d, r, body, clock, columns[n])
        case Err(e) => Err(e)
        case Ok(v) => Ok(front + [v])
  }

  lemma {:induction false} InsertValuesAt(d: Dialect, r: Resource, body: Body, clock: Clock, columns: seq<string>,
                                          i: nat)
    requires forall c :: c in columns ==> c in r.schema.at
    requires InsertValues(d, r, body, clock, columns).Ok? && i < |columns|
    ensures InsertValue(d, r, body, clock, columns[i]) == Ok(InsertValues(d, r, body, clock, columns).value[i])
  {
    var n := |columns| - 1;
    if i < n {
      InsertValuesAt(d, r, body, clock, columns[..n], i);
    }
  }

  function PersistedAmong(names: seq<string>, at: map<string, FieldSchema>): (s: seq<string>)
    ensures forall f :: f in s <==> f in names && f in at && at[f].IsPersisted()
  {
    if names == [] then []
    else
      var front, last := names[..|names| - 1], names[|names| - 1];
      assert names == front + [last];
      PersistedAmong(front, at) + if last in at && at[last].IsPersisted() then [last] else []
  }

  lemma {:induction false} PersistedGrows(names: seq<string>, at: map<string, FieldSchema>, i: nat)
    requires i < |names|
    ensures PersistedAmong(names[..i + 1], at)
            == PersistedAmong(names[..i], at) + if names[i] in at && at[names[i]].IsPersisted() then [names[i]] else []
  {
    assert names[..i + 1][..i] == names[..i];
  }

  /** The columns of the resource's table, in schema order. */
  function Persisted(r: Resource): seq<string> {
    PersistedAmong(r.schema.keys, r.schema.at)
  }

  lemma PersistedDistinct(r: Resource)
    ensures Distinct(Persisted(r))
  {
    PersistedAmongDistinct(r.schema.keys, r.schema.at);
  }

  lemma {:induction false} PersistedAmongDistinct(names: seq<string>, at: map<string, FieldSchema>)
    requires Distinct(names)
    ensures Distinct(PersistedAmong(names, at))
  {
    if names != [] {
      PersistedAmongDistinct(names[..|names| - 1], at);
    }
  }

  /** Column i receives placeholder i + 1, which is bound to variable i; `fromBody` tells which
      variables are computed from the request body. */
  datatype InsertCode = InsertCode(columns: seq<string>, params: seq<nat>, variables: seq<string>, fromBody: seq<bool>)

  function Vars(columns: seq<string>): (s: seq<string>)
    ensures |s| == |columns|
  {
    seq(|columns|, i requires 0 <= i < |columns| => SanitizeIdentifier(columns[i]))
  }

  /** The columns whose values come from the request body: those that are not generated. */
  function BodyColumns(columns: seq<string>, at: map<string, FieldSchema>): (s: seq<bool>)
    ensures |s| == |columns|
  {
    seq(|columns|, i requires 0 <= i < |columns| => columns[i] in at && !at[columns[i]].generated)
  }

  function Counting(n: nat): (s: seq<nat>)
    ensures |s| == n
  {
    seq(n, i => i + 1)
  }

  function InsertFor(r: Resource): InsertCode {
    var columns := Persisted(r);
    InsertCode(columns, Counting(|columns|), Vars(columns), BodyColumns(columns, r.schema.at))
  }

  lemma AppendColumn(columns: seq<string>, name: string, at: map<string, FieldSchema>)
    requires name in at
    ensures Vars(columns + [name]) == Vars(columns) + [SanitizeIdentifier(name)]
    ensures BodyColumns(columns + [name], at) == BodyColumns(columns, at) + [!at[name].generated]
    ensures Counting(|columns| + 1) == Counting(|columns|) + [|columns| + 1]
  {
  }

  method GenerateInsertBody(r: Resource) returns (code: InsertCode)
    ensures code == InsertFor(r)
  {
    KeysKnown(r);
    var keys := r.schema.keys;
    var columns: seq<string> := [];
    var params: seq<nat> := [];
    var variables: seq<string> := [];
    var fromBody: seq<bool> := [];
    for i := 0 to |keys|
      invariant columns == PersistedAmong(keys[..i], r.schema.at)
      invariant params == Counting(|columns|)
      invariant variables == Vars(columns) && fromBody == BodyColumns(columns, r.schema.at)
    {
      var name := keys[i];
      PersistedGrows(keys, r.schema.at, i);
      if r.schema.at[name].IsPersisted() {
        var index := |columns| + 1;
        AppendColumn(columns, name, r.schema.at);
        columns := columns + [name];
        params := params + [index];
        variables := variables + [SanitizeIdentifier(name)];
        fromBody := fromBody + [!r.schema.at[name].generated];
      }
    }
    assert keys[..|keys|] == keys;
    code := InsertCode(columns, params, variables, fromBody);
  }

  /** The row an INSERT stores. */
  function InsertedRow(code: InsertCode, args: seq<Value>): Row
    requires |code.params| == |code.columns|
  {
    RowOf(code.columns, ReadParams(code.params, args))
  }

  function ReadParams(params: seq<nat>, args: seq<Value>): (s: seq<Value>)
    ensures |s| == |params|
  {
    seq(|params|, i requires 0 <= i < |params| => Param(args, params[i]))
  }

  function RowOf(columns: seq<string>, values: seq<Value>): Row
    requires |columns| == |values|
  {
    if columns == [] then map[]
    else
      var n := |columns| - 1;
      RowOf(columns[..n], values[..n])[columns[n] := values[n]]
  }

  lemma {:induction false} RowOfHolds(columns: seq<string>, values: seq<Value>)
    requires |columns| == |values| && Distinct(columns)
    ensures RowOf(columns, values).Keys == Elements(columns)
    ensures forall i :: 0 <= i < |columns| ==>
              columns[i] in RowOf(columns, values) && RowOf(columns, values)[columns[i]] == values[i]
  {
    if columns != [] {
      var n := |columns| - 1;
      RowOfHolds(columns[..n], values[..n]);
      assert Elements(columns) == Elements(columns[..n]) + {columns[n]};
      assert forall i :: 0 <= i < n ==> columns[..n][i] == columns[i] && values[..n][i] == values[i];
    }
  }

  /** What the variables are passed as, given the values they are computed to. */
  function InsertArgs(code: InsertCode, values: seq<Value>): Option<seq<Value>>
    requires |code.variables| == |code.fromBody| == |values|
  {
    Arguments(code.variables, code.fromBody, values)
  }

  /** Whatever a request carries, the values it is inserted with reach their own columns. */
  ghost predicate ValuesArrive(d: Dialect, r: Resource, body: Body, clock: Clock) {
    var values := InsertValues(d, r, body, clock, Persisted(r));
    values.Ok? ==> InsertArgs(InsertFor(r), values.value) == Some(values.value)
  }

  /** Two generated columns that always get the same value, like two timestamps. */
  ghost predicate DrawnAlike(r: Resource, a: string, b: string)
    requires a in r.schema.at && b in r.schema.at
  {
    && r.schema.at[a].generated && r.schema.at[b].generated
    && forall clock :: GeneratedValue(r.schema.at[a], a, clock) == GeneratedValue(r.schema.at[b], b, clock)
  }

  /** Columns that share a variable are drawn alike. */
  ghost predicate SharingIsHarmless(r: Resource) {
    var columns := Persisted(r);
    forall i, j :: 0 <= i < j < |columns| && Vars(columns)[i] == Vars(columns)[j]
      ==> DrawnAlike(r, columns[i], columns[j])
  }

  lemma HarmlessArrives(d: Dialect, r: Resource, body: Body, clock: Clock)
    requires BodyInScope(InsertFor(r).variables, InsertFor(r).fromBody) && SharingIsHarmless(r)
    ensures ValuesArrive(d, r, body, clock)
  {
    var columns, code := Persisted(r), InsertFor(r);
    var values := InsertValues(d, r, body, clock, columns);
    if values.Ok? {
      forall i, j | 0 <= i < j < |columns| && code.variables[i] == code.variables[j]
        ensures values.value[i] == values.value[j]
      {
        assert DrawnAlike(r, columns[i], columns[j]);
        InsertValuesAt(d, r, body, clock, columns, i);
        InsertValuesAt(d, r, body, clock, columns, j);
      }
      AgreeingArguments(code.variables, code.fromBody, values.value);
    }
  }

  /** A body with a document for every field, "0" for all but one. */
  function FullBody(r: Resource, field: string, doc: string): Body {
    map f | f in r.schema.at :: JsonDoc(if f == field then doc else "0")
  }

  ghost predicate ReadsSamples(d: Dialect) {
    forall ft, s :: d.parseJson(ft, s) == Some(Sample(ft, s == "1"))
  }

  lemma SampleInserted(d: Dialect, r: Resource, field: string, doc: string, clock: Clock, c: string)
    requires ReadsSamples(d) && c in r.schema.at
    ensures InsertValue(d, r, FullBody(r, field, doc), clock, c)
            == Ok(if r.schema.at[c].generated then GeneratedValue(r.schema.at[c], c, clock)
                  else Sample(r.schema.at[c].fieldType, (if c == field then doc else "0") == "1"))
  {
  }

  lemma {:induction false} SamplesInsert(d: Dialect, r: Resource, field: string, doc: string, clock: Clock,
                                         columns: seq<string>)
    requires ReadsSamples(d) && forall c :: c in columns ==> c in r.schema.at
    ensures InsertValues(d, r, FullBody(r, field, doc), clock, columns).Ok?
  {
    if columns != [] {
      var n := |columns| - 1;
      SamplesInsert(d, r, field, doc, clock, columns[..n]);
      SampleInserted(d, r, field, doc, clock, columns[n]);
    }
  }

  /** Columns that are not drawn alike can be given different values. */
  lemma ColumnsDiffer(d: Dialect, r: Resource, a: string, b: string) returns (body: Body, clock: Clock)
    requires ReadsSamples(d) && a in r.schema.at && b in r.schema.at && a != b && !DrawnAlike(r, a, b)
    ensures exists field, doc :: body == FullBody(r, field, doc)
    ensures InsertValue(d, r, body, clock, a) != InsertValue(d, r, body, clock, b)
  {
    clock := Clock(0, 0, _ => 0);
    if r.schema.at[a].generated && r.schema.at[b].generated {
      clock :| GeneratedValue(r.schema.at[a], a, clock) != GeneratedValue(r.schema.at[b], b, clock);
      body := FullBody(r, a, "0");
      SampleInserted(d, r, a, "0", clock, a);
      SampleInserted(d, r, a, "0", clock, b);
    } else if !r.schema.at[a].generated {
      body := OneDiffers(d, r, a, b, clock);
    } else {
      body := OneDiffers(d, r, b, a, clock);
    }
  }

  lemma OneDiffers(d: Dialect, r: Resource, a: string, b: string, clock: Clock) returns (body: Body)
    requires ReadsSamples(d) && a in r.schema.at && b in r.schema.at && a != b && !r.schema.at[a].generated
    ensures exists field, doc :: body == FullBody(r, field, doc)
    ensures InsertValue(d, r, body, clock, a) != InsertValue(d, r, body, clock, b)
  {
    SamplesDiffer(r.schema.at[a].fieldType);
    SampleInserted(d, r, a, "0", clock, a);
    SampleInserted(d, r, a, "0", clock, b);
    SampleInserted(d, r, a, "1", clock, a);
    SampleInserted(d, r, a, "1", clock, b);
    body := FullBody(r, a, "0");
    if InsertValue(d, r, body, clock, a) == InsertValue(d, r, body, clock, b) {
      body := FullBody(r, a, "1");
    }
  }

  lemma HiddenBodyMisleads(d: Dialect, r: Resource)
    requires ReadsSamples(d) && !BodyInScope(InsertFor(r).variables, InsertFor(r).fromBody)
    ensures exists body, clock :: !ValuesArrive(d, r, body, clock)
  {
    var body, clock := FullBody(r, "", "0"), Clock(0, 0, _ => 0);
    SamplesInsert(d, r, "", "0", clock, Persisted(r));
    var values := InsertValues(d, r, body, clock, Persisted(r)).value;
    BindSucceedsExactly(InsertFor(r).variables, InsertFor(r).fromBody, values);
    assert !ValuesArrive(d, r, body, clock);
  }

  lemma SharedVariableMisleads(d: Dialect, r: Resource, i: nat, j: nat)
    requires ReadsSamples(d) && i < j < |Persisted(r)| && Vars(Persisted(r))[i] == Vars(Persisted(r))[j]
    requires !DrawnAlike(r, Persisted(r)[i], Persisted(r)[j])
    ensures exists body, clock :: !ValuesArrive(d, r, body, clock)
  {
    var columns := Persisted(r);
    PersistedDistinct(r);
    var body, clock := ColumnsDiffer(d, r, columns[i], columns[j]);
    var field, doc :| body == FullBody(r, field, doc);
    SamplesInsert(d, r, field, doc, clock, columns);
    var values := InsertValues(d, r, body, clock, columns).value;
    InsertValuesAt(d, r, body, clock, columns, i);
    InsertValuesAt(d, r, body, clock, columns, j);
    SharedArguments(InsertFor(r).variables, InsertFor(r).fromBody, values, i, j);
    assert !ValuesArrive(d, r, body, clock);
  }

  /** Exactly when an emitted INSERT is wired correctly: whatever a request carries and however
      documents parse, each column receives its own value if and only if no column called `data`
      stands in front of one that is read from the body, and only generated columns that always
      get the same value share a variable name. */
  lemma InsertVariablesExact(r: Resource)
    ensures (forall d: Dialect, body, clock :: ValuesArrive(d, r, body, clock))
            <==> BodyInScope(InsertFor(r).variables, InsertFor(r).fromBody) && SharingIsHarmless(r)
  {
    var sample: Dialect := SampleDialect();
    if !BodyInScope(InsertFor(r).variables, InsertFor(r).fromBody) {
      HiddenBodyMisleads(sample, r);
    } else if SharingIsHarmless(r) {
      forall d: Dialect, body, clock
        ensures ValuesArrive(d, r, body, clock)
      {
        HarmlessArrives(d, r, body, clock);
      }
    } else {
      var columns := Persisted(r);
      var i, j :| 0 <= i < j < |columns| && Vars(columns)[i] == Vars(columns)[j]
        && !DrawnAlike(r, columns[i], columns[j]);
      SharedVariableMisleads(sample, r, i, j);
    }
  }

  lemma CountingReadsAll(values: seq<Value>)
    ensures ReadParams(Counting(|values|), values) == values
  {
  }

  /** Without capture, the stored row holds each column's own value. */
  lemma {:induction false} InsertMeansValues(r: Resource, values: seq<Value>)
    requires var code := InsertFor(r);
             |values| == |code.columns| && Uncaptured(code.variables, code.fromBody)
    ensures var code := InsertFor(r);
            && InsertArgs(code, values).Some?
            && InsertedRow(code, InsertArgs(code, values).value) == RowOf(Persisted(r), values)
  {
    var code := InsertFor(r);
    UncapturedArguments(code.variables, code.fromBody, values);
    CountingReadsAll(values);
  }
}
