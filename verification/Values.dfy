/** Column values, rows, and the parts of the database engine the model treats as given. */
module Values {
  import opened Prelude
  import S = Strings

  datatype Ordering = Lt | Eq | Gt {
    function Flip(): Ordering {
      match this
      case Lt => Gt
      case Eq => Eq
      case Gt => Lt
    }
  }

  datatype Value =
    | Null
    | Uuid(id: nat)
    | Text(text: string)
    | Integer(i: int)
    | Number(n: real)
    | Boolean(b: bool)
    | Timestamp(at: int)
    | Date(day: int)
    | Json(doc: string)
    | Array(doc: string)

  /** A value that is present: parsers never produce SQL NULL. */
  type Datum = v: Value | v != Null witness Boolean(false)

  type Row = map<string, Value>

  function Col(row: Row, column: string): Value {
    if column in row then row[column] else Null
  }

  datatype FieldType =
    UuidType | StringType | EnumType | FileType | IntegerType | NumberType
    | BooleanType | TimestampType | DateType | JsonType | ArrayType

  /** What the generated code leaves to the engine and its libraries: the ordering of
      non-null values (collation included), text rendering, rounding to double precision,
      full-text matching, and the text and JSON parsers. */
  datatype RawDialect = RawDialect(
    before: (Value, Value) -> bool,
    render: Value -> string,
    toDouble: real -> real,
    matches: (seq<Value>, string) -> bool,
    parseText: (FieldType, string) -> Option<Datum>,
    parseJson: (FieldType, string) -> Option<Datum>)
  {
    /** `before` is a strict total order, and uuids compare as the 128-bit numbers they are,
        as values and in their fixed-width text form. */
    ghost predicate Valid() {
      && (forall a: nat, b: nat :: before(Uuid(a), Uuid(b)) <==> a < b)
      && (forall a: nat, b: nat :: before(Text(render(Uuid(a))), Text(render(Uuid(b)))) <==> a < b)
      && (forall a, b :: before(a, b) ==> !before(b, a))
      && (forall a, b :: a != b ==> before(a, b) || before(b, a))
      && (forall a, b, c :: before(a, b) && before(b, c) ==> before(a, c))
    }
  }

  type Dialect = d: RawDialect | d.Valid() ghost witness SomeDialect()

  // ----- Such a dialect exists: code-point order ---------------------------

  lemma {:induction false} TextLessIsTotal(s: string, t: string)
    ensures S.TextLess(s, t) ==> !S.TextLess(t, s)
    ensures s != t ==> S.TextLess(s, t) || S.TextLess(t, s)
  {
    S.LessTotal(s, t);
    S.LessAsymmetric(s, t);
  }

  function Kind(v: Value): nat {
    match v
    case Null => 0
    case Uuid(_) => 1
    case Text(_) => 2
    case Integer(_) => 3
    case Number(_) => 4
    case Boolean(_) => 5
    case Timestamp(_) => 6
    case Date(_) => 7
    case Json(_) => 8
    case Array(_) => 9
  }

  predicate ValueBefore(a: Value, b: Value) {
    Kind(a) < Kind(b) ||
    match (a, b)
    case (Uuid(x), Uuid(y)) => x < y
    case (Text(x), Text(y)) => S.TextLess(x, y)
    case (Integer(x), Integer(y)) => x < y
    case (Number(x), Number(y)) => x < y
    case (Boolean(x), Boolean(y)) => !x && y
    case (Timestamp(x), Timestamp(y)) => x < y
    case (Date(x), Date(y)) => x < y
    case (Json(x), Json(y)) => S.TextLess(x, y)
    case (Array(x), Array(y)) => S.TextLess(x, y)
    case _ => false
  }

  lemma ValueBeforeTotal(a: Value, b: Value)
    ensures ValueBefore(a, b) ==> !ValueBefore(b, a)
    ensures a != b ==> ValueBefore(a, b) || ValueBefore(b, a)
  {
    match (a, b)
    case (Text(x), Text(y)) => TextLessIsTotal(x, y);
    case (Json(x), Json(y)) => TextLessIsTotal(x, y);
    case (Array(x), Array(y)) => TextLessIsTotal(x, y);
    case _ =>
  }

  lemma ValueBeforeTransitive(a: Value, b: Value, c: Value)
    requires ValueBefore(a, b) && ValueBefore(b, c)
    ensures ValueBefore(a, c)
  {
    match (a, b, c)
    case (Text(x), Text(y), Text(z)) => S.LessTransitive(x, y, z);
    case (Json(x), Json(y), Json(z)) => S.LessTransitive(x, y, z);
    case (Array(x), Array(y), Array(z)) => S.LessTransitive(x, y, z);
    case _ =>
  }

  /** A text for uuids that keeps their order: one stroke for each. */
  function Strokes(n: nat): string {
    if n == 0 then "" else ['|'] + Strokes(n - 1)
  }

  lemma {:induction false} StrokesKeepOrder(m: nat, n: nat)
    ensures S.TextLess(Strokes(m), Strokes(n)) <==> m < n
  {
    if m > 0 && n > 0 {
      StrokesKeepOrder(m - 1, n - 1);
    }
  }

  function RenderUuid(v: Value): string {
    if v.Uuid? then Strokes(v.id) else ""
  }

  ghost function SomeDialect(): (d: RawDialect)
    ensures d.Valid()
  {
    var d := RawDialect(ValueBefore, RenderUuid, x => x, (vs, t) => false, (ft, s) => None, (ft, s) => None);
    assert d.Valid() by {
      forall a: nat, b: nat { StrokesKeepOrder(a, b); }
      forall a, b { ValueBeforeTotal(a, b); }
      forall a, b, c | ValueBefore(a, b) && ValueBefore(b, c) { ValueBeforeTransitive(a, b, c); }
    }
    d
  }

  /** Two values of every type. */
  function Sample(ft: FieldType, more: bool): Datum {
    match ft
    case UuidType => Uuid(if more then 1 else 0)
    case IntegerType => Integer(if more then 1 else 0)
    case NumberType => Number(if more then 1.0 else 0.0)
    case BooleanType => Boolean(more)
    case TimestampType => Timestamp(if more then 1 else 0)
    case DateType => Date(if more then 1 else 0)
    case JsonType => Json(if more then "1" else "0")
    case ArrayType => Array(if more then "[1]" else "[]")
    case _ => Text(if more then "1" else "0")
  }

  lemma SamplesDiffer(ft: FieldType)
    ensures Sample(ft, true) != Sample(ft, false)
  {
    assert "1"[0] != "0"[0] && |"[1]"| != |"[]"|;
  }

  /** A dialect whose parsers read "1" as the second value of a type and anything else as the
      first. */
  ghost function SampleDialect(): (d: RawDialect)
    ensures d.Valid()
    ensures forall ft, s :: d.parseText(ft, s) == Some(Sample(ft, s == "1"))
    ensures forall ft, s :: d.parseJson(ft, s) == Some(Sample(ft, s == "1"))
  {
    SomeDialect().(
      parseText := (ft, s) => Some(Sample(ft, s == "1")),
      parseJson := (ft, s) => Some(Sample(ft, s == "1")))
  }

  // ----- Comparison with SQL NULL placement --------------------------------

  /** Ascending comparison with NULLS LAST. Its mirror image is the descending one with
      NULLS FIRST, which is the engine's default for DESC. */
  function Compare(d: Dialect, a: Value, b: Value): Ordering {
    if a == b then Eq
    else if a == Null then Gt
    else if b == Null then Lt
    else if d.before(a, b) then Lt else Gt
  }

  lemma CompareIsTotalOrder(d: Dialect, a: Value, b: Value, c: Value)
    ensures Compare(d, b, a) == Compare(d, a, b).Flip()
    ensures Compare(d, a, b) == Eq <==> a == b
    ensures Compare(d, a, b) == Lt && Compare(d, b, c) == Lt ==> Compare(d, a, c) == Lt
  {
  }
}
