/** Resource schemas as the code generator sees them. */
module Schema {
  import opened Prelude
  import opened Values
  import opened Decimals

  datatype FieldSchema = FieldSchema(
    fieldType: FieldType,
    primary: bool,
    generated: bool,
    required: bool,
    nullable: bool,
    transient: bool,
    default: Option<Datum>,
    values: seq<string>)
  {
    predicate IsPersisted() {
      !transient
    }

    /** The generated record holds an Option for this field. */
    predicate IsOptional() {
      nullable || !(primary || required || generated || default.Some?)
    }
  }

  /** A value of a column's type; an enum column holds one of its declared values. */
  predicate HasType(f: FieldSchema, v: Value) {
    match f.fieldType
    case UuidType => v.Uuid?
    case StringType => v.Text?
    case EnumType => v.Text? && v.text in f.values
    case FileType => v.Text?
    case IntegerType => v.Integer?
    case NumberType => v.Number?
    case BooleanType => v.Boolean?
    case TimestampType => v.Timestamp?
    case DateType => v.Date?
    case JsonType => v.Json?
    case ArrayType => v.Array?
  }

  /** What the column of a field can hold: NULL only where the record has an Option, and
      never in a primary key. */
  predicate Storable(f: FieldSchema, v: Value) {
    if v == Null then f.IsOptional() && !f.primary else HasType(f, v)
  }

  function StoredColumns(schema: IndexMap<FieldSchema>): set<string> {
    set c | c in schema.at && schema.at[c].IsPersisted()
  }

  /** The column that rows are identified by is stored, primary, and a uuid. */
  predicate UuidKey(schema: IndexMap<FieldSchema>, pk: string) {
    pk in StoredColumns(schema) && schema.at[pk].primary && schema.at[pk].fieldType == UuidType
  }

  lemma KeyIsUuid(schema: IndexMap<FieldSchema>, pk: string, row: Row)
    requires UuidKey(schema, pk) && TypedRow(schema, row)
    ensures Col(row, pk).Uuid?
  {
    assert Storable(schema.at[pk], row[pk]);
  }

  /** A row the table of a schema can hold. */
  ghost predicate TypedRow(schema: IndexMap<FieldSchema>, row: Row) {
    row.Keys == StoredColumns(schema) && forall c :: c in row ==> Storable(schema.at[c], row[c])
  }

  /** The first of the names that no field has. */
  function FirstMissing(names: seq<string>, at: map<string, FieldSchema>): Option<string> {
    if names == [] then None
    else if names[0] !in at then Some(names[0])
    else FirstMissing(names[1..], at)
  }

  lemma {:induction false} NoneMissing(names: seq<string>, at: map<string, FieldSchema>)
    ensures FirstMissing(names, at) == None <==> forall f :: f in names ==> f in at
  {
    if names != [] {
      assert names == [names[0]] + names[1..];
      NoneMissing(names[1..], at);
    }
  }

  lemma {:induction false} MissingAt(names: seq<string>, at: map<string, FieldSchema>, i: nat)
    requires i < |names| && names[i] !in at && forall f :: f in names[..i] ==> f in at
    ensures FirstMissing(names, at) == Some(names[i])
  {
    if i > 0 {
      var rest := names[1..];
      assert names[..i] == [names[0]] + rest[..i - 1];
      MissingAt(rest, at, i - 1);
    }
  }

  /** The name is in the list, unknown, and no earlier one is. */
  ghost predicate IsFirstMissing(names: seq<string>, at: map<string, FieldSchema>, f: string) {
    exists i :: 0 <= i < |names| && names[i] == f && f !in at && forall j :: 0 <= j < i ==> names[j] in at
  }

  lemma {:induction false} FirstIsMissing(names: seq<string>, at: map<string, FieldSchema>)
    requires FirstMissing(names, at).Some?
    ensures IsFirstMissing(names, at, FirstMissing(names, at).value)
  {
    if names[0] !in at {
      assert names[0] == FirstMissing(names, at).value;
    } else {
      FirstIsMissing(names[1..], at);
      var f := FirstMissing(names, at).value;
      var i :| 0 <= i < |names[1..]| && names[1..][i] == f && f !in at
               && forall j :: 0 <= j < i ==> names[1..][j] in at;
      assert names[i + 1] == f;
      forall j | 0 <= j < i + 1
        ensures names[j] in at
      {
        assert j > 0 ==> names[j] == names[1..][j - 1];
      }
    }
  }

  datatype EndpointSpec = EndpointSpec(
    filters: seq<string>,
    search: seq<string>,
    sort: seq<string>)

  datatype Resource = Resource(schema: IndexMap<FieldSchema>, softDelete: bool)

  /** The column every statement identifies rows by: the first primary field, else "id". */
  function PrimaryKey(r: Resource): string {
    PrimaryAmong(r.schema.keys, r.schema.at)
  }

  function PrimaryAmong(names: seq<string>, at: map<string, FieldSchema>): string {
    if names == [] then "id"
    else if names[0] in at && at[names[0]].primary then names[0]
    else PrimaryAmong(names[1..], at)
  }

  /** Turns a field name into the Rust variable name the generator uses for it. */
  function SanitizeIdentifier(name: string): string {
    var cleaned := SanitizeChars(name);
    if cleaned != "" && '0' <= cleaned[0] <= '9' then "_" + cleaned else cleaned
  }

  function SanitizeChars(name: string): (s: string)
    ensures |s| == |name|
  {
    if name == "" then "" else [SanitizeChar(name[0])] + SanitizeChars(name[1..])
  }

  function SanitizeChar(c: char): char {
    if 'A' <= c <= 'Z' then c - 'A' + 'a'
    else if ('a' <= c <= 'z') || ('0' <= c <= '9') then c
    else '_'
  }

  predicate InIdentifiers(c: char) {
    'a' <= c <= 'z' || IsDigit(c) || c == '_'
  }

  /** Lower-case letters, digits and underscores, no digit in front. */
  predicate IsIdentifier(s: string) {
    (forall c :: c in s ==> InIdentifiers(c)) && (s != "" ==> !IsDigit(s[0]))
  }

  /** The same letter in either case, the same digit, or two characters an identifier cannot
      tell from an underscore. */
  predicate Alike(c: char, e: char) {
    || c == e
    || ('A' <= c <= 'Z' && e == c - 'A' + 'a')
    || ('A' <= e <= 'Z' && c == e - 'A' + 'a')
    || (!IsLetterOrDigit(c) && !IsLetterOrDigit(e))
  }

  predicate IsLetterOrDigit(c: char) {
    'a' <= c <= 'z' || 'A' <= c <= 'Z' || IsDigit(c)
  }

  lemma {:induction false} SanitizedChars(name: string)
    ensures forall c :: c in SanitizeChars(name) ==> InIdentifiers(c)
    ensures SanitizeChars(name) == name <==> forall c :: c in name ==> InIdentifiers(c)
  {
    if name != "" {
      SanitizedChars(name[1..]);
      var s := SanitizeChars(name);
      assert name == [name[0]] + name[1..] && s[1..] == SanitizeChars(name[1..]);
      assert s == name <==> s[0] == name[0] && s[1..] == name[1..];
      assert s[0] == name[0] <==> InIdentifiers(name[0]);
      assert forall c :: c in name <==> c == name[0] || c in name[1..];
    }
  }

  /** Sanitising yields an identifier, and leaves alone exactly identifiers. */
  lemma SanitizedIsIdentifier(name: string)
    ensures IsIdentifier(SanitizeIdentifier(name))
    ensures SanitizeIdentifier(name) == name <==> IsIdentifier(name)
  {
    SanitizedChars(name);
    assert name != "" ==> name[0] in name;
  }

  lemma {:induction false} AlikeChars(f: string, g: string)
    ensures SanitizeChars(f) == SanitizeChars(g) <==> |f| == |g| && forall i :: 0 <= i < |f| ==> Alike(f[i], g[i])
  {
    if f != "" && g != "" {
      AlikeChars(f[1..], g[1..]);
      var s, t := SanitizeChars(f), SanitizeChars(g);
      assert s == [s[0]] + SanitizeChars(f[1..]) && t == [t[0]] + SanitizeChars(g[1..]);
      assert forall i :: 1 <= i < |f| ==> f[i] == f[1..][i - 1];
      assert forall i :: 1 <= i < |g| ==> g[i] == g[1..][i - 1];
      assert s == t <==> s[0] == t[0] && s[1..] == t[1..];
    }
  }

  /** Two names of which both or neither start with a digit become one identifier exactly when
      they are alike character by character. */
  lemma SharedIdentifierExactly(f: string, g: string)
    requires (f != "" && IsDigit(f[0])) == (g != "" && IsDigit(g[0]))
    ensures SanitizeIdentifier(f) == SanitizeIdentifier(g) <==>
              |f| == |g| && forall i :: 0 <= i < |f| ==> Alike(f[i], g[i])
  {
    AlikeChars(f, g);
    var s, t := SanitizeChars(f), SanitizeChars(g);
    assert ("_" + s)[1..] == s && ("_" + t)[1..] == t;
  }
}
