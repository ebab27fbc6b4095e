/** The marked-YAML walk: markers are erased from the tree and indexed by field path. */
module Spans {
  import opened Prelude
  import opened Decimals
  import opened Paths

  datatype Marker = Marker(line: nat, col: nat)

  /** A float is kept as the text it prints as. */
  datatype Scalar =
    | Null
    | Boolean(b: bool)
    | Integer(i: int)
    | FloatingPoint(text: string)
    | Text(s: string)

  datatype Data =
    | Value(scalar: Scalar)
    | Sequence(items: seq<Node>)
    | Mapping(entries: seq<(Node, Node)>)
    | Tagged(inner: Node)
    | Alias
    | BadValue
    | Representation(raw: string)

  datatype Node = Node(start: Marker, end: Marker, data: Data)

  /** What the walk returns: the same document without positions. */
  datatype Plain =
    | PNull
    | PBool(b: bool)
    | PInteger(i: int)
    | PFloat(text: string)
    | PString(s: string)
    | PSequence(items: seq<Plain>)
    | PMapping(fields: RawIndexMap<Plain>)

  type U32 = n: nat | n < 0x1_0000_0000

  datatype Span = Span(line: U32, col: U32, endLine: U32, endCol: U32)

  class SpanMap {
    const file: string
    var inner: map<string, Span>

    constructor (file: string)
      ensures this.file == file && inner == map[]
    {
      this.file := file;
      inner := map[];
    }

    method Insert(path: string, span: Span)
      modifies this
      ensures inner == old(inner)[path := span]
    {
      inner := inner[path := span];
    }

    function Lookup(path: string): (found: Option<(string, Span)>)
      reads this
      ensures found.Some? <==> path in inner
      ensures found.Some? ==> found.value == (file, inner[path])
    {
      if path in inner then Some((file, inner[path])) else None
    }

    function Len(): (n: nat)
      reads this
      ensures n == |inner.Keys|
    {
      assert |inner| == |inner.Keys|;
      |inner|
    }
  }

  // ----- What one node contributes ------------------------------------------

  function Truncate(n: nat): U32 {
    n % 0x1_0000_0000
  }

  /** Columns are counted from zero by the scanner and from one in spans. */
  function OneBased(col: nat): U32 {
    Truncate(Truncate(col) + 1)
  }

  function SpanOf(n: Node): Span {
    var col := OneBased(n.start.col);
    var endCol := if n.end.line == 0 && n.end.col == 0 then col else OneBased(n.end.col);
    Span(Truncate(n.start.line), col, Truncate(n.end.line), endCol)
  }

  function ErasedScalar(s: Scalar): Plain {
    match s
    case Null => PNull
    case Boolean(b) => PBool(b)
    case Integer(i) => PInteger(i)
    case FloatingPoint(text) => PFloat(text)
    case Text(s) => PString(s)
  }

  function Signed(i: int): string {
    if i < 0 then "-" + Decimal(-i) else Decimal(i)
  }

  /** How a scalar is printed for debugging; keys that are not strings are named by it. */
  function DebugText(s: Scalar): string {
    match s
    case Null => "Null"
    case Boolean(b) => if b then "Boolean(true)" else "Boolean(false)"
    case Integer(i) => "Integer(" + Signed(i) + ")"
    case FloatingPoint(text) => "FloatingPoint(" + text + ")"
    case Text(s) => "String(\"" + s + "\")"
  }

  function KeyText(key: Node): Option<string> {
    match key.data
    case Value(Text(s)) => Some(s)
    case Value(scalar) => Some(DebugText(scalar))
    case _ => None
  }

  function Arity(n: Node): nat {
    match n.data
    case Sequence(items) => |items|
    case Mapping(entries) => |entries|
    case _ => 0
  }

  function Child(n: Node, k: nat): Node
    requires k < Arity(n)
  {
    match n.data
    case Sequence(items) => items[k]
    case Mapping(entries) => entries[k].1
  }

  /** The step from a node to its k-th child; entries under a compound key have none. */
  function StepTo(n: Node, k: nat): Option<Segment>
    requires k < Arity(n)
  {
    match n.data
    case Sequence(_) => Some(Index(k))
    case Mapping(entries) =>
      match KeyText(entries[k].0)
      case None => None
      case Some(name) => Some(Key(name))
  }

  // ----- The walk as two functions ------------------------------------------

  /** Inserting under an existing key keeps its place and replaces its value. */
  function Put(m: RawIndexMap<Plain>, k: string, v: Plain): RawIndexMap<Plain> {
    RawIndexMap(if k in m.at then m.keys else m.keys + [k], m.at[k := v])
  }

  function Erase(n: Node): Plain
    decreases n, Arity(n) + 1
  {
    match n.data
    case Value(scalar) => ErasedScalar(scalar)
    case Sequence(_) => PSequence(ErasedItems(n, Arity(n)))
    case Mapping(_) => PMapping(ErasedFields(n, Arity(n)))
    case Tagged(inner) => Erase(inner)
    case Representation(raw) => PString(raw)
    case _ => PNull
  }

  function ErasedItems(n: Node, k: nat): (r: seq<Plain>)
    requires k <= Arity(n)
    ensures |r| == k
    decreases n, k
  {
    if k == 0 then [] else ErasedItems(n, k - 1) + [Erase(Child(n, k - 1))]
  }

  function ErasedFields(n: Node, k: nat): RawIndexMap<Plain>
    requires k <= Arity(n)
    decreases n, k
  {
    if k == 0 then RawIndexMap([], map[])
    else match StepTo(n, k - 1)
      case Some(Key(name)) => Put(ErasedFields(n, k - 1), name, Erase(Child(n, k - 1)))
      case _ => ErasedFields(n, k - 1)
  }

  /** The spans the walk of `n` records when `n` sits at `path`. */
  function Spans(n: Node, path: string): map<string, Span>
    decreases n, Arity(n) + 1
  {
    map[path := SpanOf(n)] + SpansBelow(n, path)
  }

  /** What is recorded after the node's own span; a tag's inner node has the same path. */
  function SpansBelow(n: Node, path: string): map<string, Span>
    decreases n, Arity(n), 2
  {
    if n.data.Tagged? then Spans(n.data.inner, path) else ChildSpans(n, path, Arity(n))
  }

  function ChildSpans(n: Node, path: string, k: nat): map<string, Span>
    requires k <= Arity(n)
    decreases n, k, 1
  {
    if k == 0 then map[] else ChildSpans(n, path, k - 1) + ChildSpansAt(n, path, k - 1)
  }

  /** The spans below the k-th child. */
  function ChildSpansAt(n: Node, path: string, k: nat): map<string, Span>
    requires k < Arity(n)
    decreases n, k, 0
  {
    match StepTo(n, k)
    case Some(step) => Spans(Child(n, k), ChildPath(path, step))
    case None => map[]
  }

  lemma Recorded<V>(m: map<string, V>, a: map<string, V>, b: map<string, V>)
    ensures m + a + b == m + (a + b)
  {
  }

  /** The walk: one pass that returns the plain document and fills the index. */
  method WalkNode(n: Node, path: string, index: SpanMap) returns (value: Plain)
    modifies index
    ensures value == Erase(n)
    ensures index.inner == old(index.inner) + Spans(n, path)
    decreases n, 2
  {
    index.Insert(path, SpanOf(n));
    value := WalkData(n, path, index);
    Recorded(old(index.inner), map[path := SpanOf(n)], SpansBelow(n, path));
  }

  method WalkData(n: Node, path: string, index: SpanMap) returns (value: Plain)
    modifies index
    ensures value == Erase(n)
    ensures index.inner == old(index.inner) + SpansBelow(n, path)
    decreases n, 1
  {
    match n.data
    case Value(scalar) =>
      value := ErasedScalar(scalar);
    case Sequence(_) =>
      value := WalkSequence(n, path, index);
    case Mapping(_) =>
      value := WalkMapping(n, path, index);
    case Tagged(inner) =>
      value := WalkNode(inner, path, index);
    case Representation(raw) =>
      value := PString(raw);
    case _ =>
      value := PNull;
  }

  method WalkSequence(n: Node, path: string, index: SpanMap) returns (value: Plain)
    requires n.data.Sequence?
    modifies index
    ensures value == PSequence(ErasedItems(n, Arity(n)))
    ensures index.inner == old(index.inner) + ChildSpans(n, path, Arity(n))
    decreases n, 0
  {
    var out := [];
    for k := 0 to |n.data.items|
      invariant out == ErasedItems(n, k)
      invariant index.inner == old(index.inner) + ChildSpans(n, path, k)
    {
      Recorded(old(index.inner), ChildSpans(n, path, k), ChildSpansAt(n, path, k));
      var v := WalkNode(n.data.items[k], ChildPath(path, Index(k)), index);
      out := out + [v];
    }
    value := PSequence(out);
  }

  method WalkMapping(n: Node, path: string, index: SpanMap) returns (value: Plain)
    requires n.data.Mapping?
    modifies index
    ensures value == PMapping(ErasedFields(n, Arity(n)))
    ensures index.inner == old(index.inner) + ChildSpans(n, path, Arity(n))
    decreases n, 0
  {
    var out := RawIndexMap([], map[]);
    for k := 0 to |n.data.entries|
      invariant out == ErasedFields(n, k)
      invariant index.inner == old(index.inner) + ChildSpans(n, path, k)
    {
      Recorded(old(index.inner), ChildSpans(n, path, k), ChildSpansAt(n, path, k));
      var (key, child) := n.data.entries[k];
      var name := KeyText(key);
      if name.Some? {
        var v := WalkNode(child, ChildPath(path, Key(name.value)), index);
        out := Put(out, name.value, v);
      }
    }
    value := PMapping(out);
  }

  // ----- Places in a document -----------------------------------------------

  /** The node under any tags. */
  function Untagged(n: Node): Node {
    match n.data
    case Tagged(inner) => Untagged(inner)
    case _ => n
  }

  ghost predicate IsChild(n: Node, step: Segment, k: nat) {
    k < Arity(n) && StepTo(n, k) == Some(step)
  }

  /** Walking `a` down from `n` can end at `m`. */
  ghost predicate Reaches(n: Node, a: Address, m: Node)
    decreases |a|
  {
    var u := Untagged(n);
    if a == [] then m == u
    else exists k: nat :: IsChild(u, a[0], k) && Reaches(Child(u, k), a[1..], m)
  }

  /** No mapping uses a name twice; entries under a compound key have no name. */
  ghost predicate UniquelyNamed(n: Node) {
    if n.data.Tagged? then UniquelyNamed(n.data.inner)
    else
      && (forall j, k :: 0 <= j < k < Arity(n) && StepTo(n, j).Some? ==> StepTo(n, j) != StepTo(n, k))
      && (forall k :: 0 <= k < Arity(n) && StepTo(n, k).Some? ==> UniquelyNamed(Child(n, k)))
  }

  /** Every name is one that keeps paths readable back. */
  ghost predicate SafelyNamed(n: Node) {
    if n.data.Tagged? then SafelyNamed(n.data.inner)
    else
      forall k :: 0 <= k < Arity(n) && StepTo(n, k).Some? ==>
        SafeSegment(StepTo(n, k).value) && SafelyNamed(Child(n, k))
  }

  /** Nodes of a document, tags not counted and compound keys left out. */
  function Size(n: Node): nat
    decreases n, Arity(n) + 1
  {
    if n.data.Tagged? then Size(n.data.inner) else 1 + ChildSizes(n, Arity(n))
  }

  function ChildSizes(n: Node, k: nat): nat
    requires k <= Arity(n)
    decreases n, k
  {
    if k == 0 then 0
    else ChildSizes(n, k - 1) + if StepTo(n, k - 1).Some? then Size(Child(n, k - 1)) else 0
  }

  lemma {:induction false} UntaggedKeeps(n: Node, path: string)
    ensures !Untagged(n).data.Tagged?
    ensures Spans(n, path) == Spans(Untagged(n), path)
    ensures Erase(n) == Erase(Untagged(n))
    ensures Size(n) == Size(Untagged(n))
    ensures UniquelyNamed(n) ==> UniquelyNamed(Untagged(n))
    ensures SafelyNamed(n) ==> SafelyNamed(Untagged(n))
  {
    if n.data.Tagged? {
      UntaggedKeeps(n.data.inner, path);
    }
  }

  // ----- Every path names one place -----------------------------------------

  lemma {:induction false} StepsDistinct(u: Node, j: nat, k: nat)
    requires UniquelyNamed(u) && !u.data.Tagged? && j < Arity(u) && k < Arity(u)
    requires StepTo(u, j).Some? && StepTo(u, j) == StepTo(u, k)
    ensures j == k
  {
  }

  lemma {:induction false} FromSomeChild(u: Node, path: string, k: nat, p: string) returns (j: nat)
    requires k <= Arity(u) && p in ChildSpans(u, path, k)
    ensures j < k && p in ChildSpansAt(u, path, j)
  {
    if p in ChildSpansAt(u, path, k - 1) {
      j := k - 1;
    } else {
      j := FromSomeChild(u, path, k - 1, p);
    }
  }

  /** Nothing is recorded away from a place in the document. */
  lemma {:induction false} IndexIsSound(n: Node, base: Address, p: string) returns (a: Address, m: Node)
    requires p in Spans(n, Render(base))
    ensures Reaches(n, a, m) && p == Render(base + a)
    decreases n
  {
    a, m := [], Untagged(n);
    if p == Render(base) {
      assert base + [] == base;
    } else if n.data.Tagged? {
      a, m := IndexIsSound(n.data.inner, base, p);
    } else {
      var k := FromSomeChild(n, Render(base), Arity(n), p);
      var step := StepTo(n, k).value;
      RenderStep(base, step);
      var b;
      b, m := IndexIsSound(Child(n, k), base + [step], p);
      DescendsInto(n, step, k, b, m);
      a := [step] + b;
      Regroup(base, step, b);
    }
  }

  lemma Regroup(base: Address, step: Segment, b: Address)
    ensures base + [step] + b == base + ([step] + b)
  {
  }

  lemma {:induction false} RenderStep(base: Address, step: Segment)
    ensures Render(base + [step]) == ChildPath(Render(base), step)
  {
    assert (base + [step])[..|base|] == base;
  }

  lemma {:induction false} DescendsInto(u: Node, step: Segment, k: nat, a: Address, m: Node)
    requires !u.data.Tagged? && IsChild(u, step, k) && Reaches(Child(u, k), a, m)
    ensures Reaches(u, [step] + a, m)
  {
    var b := [step] + a;
    assert b[0] == step && b[1..] == a;
    assert Untagged(u) == u && b != [];
    assert IsChild(u, b[0], k) && Reaches(Child(u, k), b[1..], m);
  }

  /** Where names are safe, only safe addresses lead anywhere. */
  lemma {:induction false} ReachedIsSafe(n: Node, a: Address, m: Node)
    requires SafelyNamed(n) && Reaches(n, a, m)
    ensures SafeAddress(a)
    decreases |a|
  {
    if a != [] {
      UntaggedKeeps(n, "");
      var u := Untagged(n);
      var k: nat :| IsChild(u, a[0], k) && Reaches(Child(u, k), a[1..], m);
      ReachedIsSafe(Child(u, k), a[1..], m);
      assert a == [a[0]] + a[1..];
    }
  }

  /** Paths recorded below one child start with that child's step. */
  lemma PathThroughChild(u: Node, base: Address, k: nat, p: string) returns (a: Address)
    requires SafelyNamed(u) && !u.data.Tagged? && k < Arity(u)
    requires p in ChildSpansAt(u, Render(base), k)
    ensures SafeAddress(a) && StepTo(u, k).Some? && SafeSegment(StepTo(u, k).value)
    ensures p == Render(base + [StepTo(u, k).value] + a)
  {
    var step := StepTo(u, k).value;
    RenderStep(base, step);
    var m;
    a, m := IndexIsSound(Child(u, k), base + [step], p);
    ReachedIsSafe(Child(u, k), a, m);
  }

  lemma {:induction false} SamePathSameStep(base: Address, s: Segment, a: Address, t: Segment, b: Address)
    requires SafeAddress(base) && SafeAddress(a) && SafeAddress(b) && SafeSegment(s) && SafeSegment(t)
    requires Render(base + [s] + a) == Render(base + [t] + b)
    ensures s == t
  {
    RenderInjective(base + [s] + a, base + [t] + b);
    assert (base + [s] + a)[|base|] == s && (base + [t] + b)[|base|] == t;
  }

  /** Two children never record the same path. */
  lemma {:induction false} ChildrenApart(u: Node, base: Address, j: nat, k: nat, p: string)
    requires UniquelyNamed(u) && SafelyNamed(u) && !u.data.Tagged? && SafeAddress(base)
    requires j < Arity(u) && k < Arity(u) && j != k
    requires p in ChildSpansAt(u, Render(base), j)
    ensures p !in ChildSpansAt(u, Render(base), k)
  {
    if p in ChildSpansAt(u, Render(base), k) {
      var a := PathThroughChild(u, base, j, p);
      var b := PathThroughChild(u, base, k, p);
      SamePathSameStep(base, StepTo(u, j).value, a, StepTo(u, k).value, b);
      StepsDistinct(u, j, k);
    }
  }

  /** No child records the path of its parent. */
  lemma {:induction false} ParentApart(u: Node, base: Address, k: nat)
    requires UniquelyNamed(u) && SafelyNamed(u) && !u.data.Tagged? && SafeAddress(base) && k < Arity(u)
    ensures Render(base) !in ChildSpansAt(u, Render(base), k)
  {
    if Render(base) in ChildSpansAt(u, Render(base), k) {
      var a := PathThroughChild(u, base, k, Render(base));
      var b := base + [StepTo(u, k).value] + a;
      assert |b| > |base|;
      RenderInjective(base, b);
    }
  }

  lemma {:induction false} ChildKept(u: Node, base: Address, k: nat, j: nat, p: string)
    requires UniquelyNamed(u) && SafelyNamed(u) && !u.data.Tagged? && SafeAddress(base) && k < j <= Arity(u)
    requires p in ChildSpansAt(u, Render(base), k)
    ensures p in ChildSpans(u, Render(base), j)
    ensures ChildSpans(u, Render(base), j)[p] == ChildSpansAt(u, Render(base), k)[p]
    decreases j
  {
    if k < j - 1 {
      ChildrenApart(u, base, k, j - 1, p);
      ChildKept(u, base, k, j - 1, p);
    }
  }

  /** Every place of a document is recorded. */
  lemma {:induction false} PlaceIsRecorded(n: Node, base: Address, a: Address, m: Node)
    requires Reaches(n, a, m)
    ensures Render(base + a) in Spans(n, Render(base))
    decreases |a|
  {
    UntaggedKeeps(n, Render(base));
    var u := Untagged(n);
    if a == [] {
      assert base + a == base;
    } else {
      var k: nat :| IsChild(u, a[0], k) && Reaches(Child(u, k), a[1..], m);
      PlaceBelow(u, base, a, k, m);
    }
  }

  lemma {:induction false} PlaceBelow(u: Node, base: Address, a: Address, k: nat, m: Node)
    requires !u.data.Tagged? && a != [] && IsChild(u, a[0], k) && Reaches(Child(u, k), a[1..], m)
    ensures Render(base + a) in Spans(u, Render(base))
    decreases |a|, 0
  {
    PlaceIsRecorded(Child(u, k), base + [a[0]], a[1..], m);
    assert base + [a[0]] + a[1..] == base + a;
    RenderStep(base, a[0]);
    RecordedBelow(u, Render(base), k, Arity(u), Render(base + a));
  }

  lemma {:induction false} RecordedBelow(u: Node, path: string, k: nat, j: nat, p: string)
    requires k < j <= Arity(u) && p in ChildSpansAt(u, path, k)
    ensures p in ChildSpans(u, path, j)
    decreases j
  {
    if k < j - 1 {
      RecordedBelow(u, path, k, j - 1, p);
    }
  }

  /** Main result: where names are unique and safe, looking up the path of any place gives the
      span of the node found there. */
  lemma {:induction false} LookupFindsNode(n: Node, base: Address, a: Address, m: Node)
    requires UniquelyNamed(n) && SafelyNamed(n) && SafeAddress(base) && Reaches(n, a, m)
    ensures Render(base + a) in Spans(n, Render(base))
    ensures Spans(n, Render(base))[Render(base + a)] == SpanOf(m)
    decreases |a|
  {
    UntaggedKeeps(n, Render(base));
    var u := Untagged(n);
    if a == [] {
      assert base + a == base;
      RootSpan(u, base);
    } else {
      var k: nat :| IsChild(u, a[0], k) && Reaches(Child(u, k), a[1..], m);
      LookupBelow(u, base, a, k, m);
    }
  }

  lemma {:induction false} LookupBelow(u: Node, base: Address, a: Address, k: nat, m: Node)
    requires UniquelyNamed(u) && SafelyNamed(u) && !u.data.Tagged? && SafeAddress(base)
    requires a != [] && IsChild(u, a[0], k) && Reaches(Child(u, k), a[1..], m)
    ensures Render(base + a) in Spans(u, Render(base))
    ensures Spans(u, Render(base))[Render(base + a)] == SpanOf(m)
    decreases |a|, 0
  {
    SafeBase(base, a[0]);
    LookupFindsNode(Child(u, k), base + [a[0]], a[1..], m);
    assert base + [a[0]] + a[1..] == base + a;
    FoundBelow(u, base, a[0], k, Render(base + a));
  }

  lemma SafeBase(base: Address, step: Segment)
    requires SafeAddress(base) && SafeSegment(step)
    ensures SafeAddress(base + [step])
  {
  }

  lemma {:induction false} FoundBelow(u: Node, base: Address, step: Segment, k: nat, p: string)
    requires UniquelyNamed(u) && SafelyNamed(u) && !u.data.Tagged? && SafeAddress(base) && IsChild(u, step, k)
    requires p in Spans(Child(u, k), Render(base + [step]))
    ensures p in Spans(u, Render(base))
    ensures Spans(u, Render(base))[p] == Spans(Child(u, k), Render(base + [step]))[p]
  {
    RenderStep(base, step);
    ChildKept(u, base, k, Arity(u), p);
  }

  lemma {:induction false} RootSpan(u: Node, base: Address)
    requires UniquelyNamed(u) && SafelyNamed(u) && !u.data.Tagged? && SafeAddress(base)
    ensures Render(base) in Spans(u, Render(base)) && Spans(u, Render(base))[Render(base)] == SpanOf(u)
  {
    var p := Render(base);
    if p in ChildSpans(u, p, Arity(u)) {
      var k := FromSomeChild(u, p, Arity(u), p);
      ParentApart(u, base, k);
    }
  }

  lemma DisjointUnion<K, V>(a: map<K, V>, b: map<K, V>)
    requires forall k :: k in a ==> k !in b
    ensures |a + b| == |a| + |b|
  {
    assert |a + b| == |(a + b).Keys| && |a| == |a.Keys| && |b| == |b.Keys|;
    assert (a + b).Keys == a.Keys + b.Keys;
    assert a.Keys !! b.Keys;
  }

  /** Main result: the index has one entry per node of the document. */
  lemma {:induction false} OneEntryPerNode(n: Node, base: Address)
    requires UniquelyNamed(n) && SafelyNamed(n) && SafeAddress(base)
    ensures |Spans(n, Render(base))| == Size(n)
    decreases n, Arity(n) + 1
  {
    var path := Render(base);
    if n.data.Tagged? {
      OneEntryPerNode(n.data.inner, base);
      UntaggedKeeps(n, path);
      UntaggedKeeps(n.data.inner, path);
    } else {
      ChildEntries(n, base, Arity(n));
      var own := map[path := SpanOf(n)];
      var below := ChildSpans(n, path, Arity(n));
      if path in below {
        var k := FromSomeChild(n, path, Arity(n), path);
        ParentApart(n, base, k);
      }
      DisjointUnion(own, below);
    }
  }

  /** As many entries as nodes below the first k children. */
  ghost predicate Counted(n: Node, path: string, k: nat)
    requires k <= Arity(n)
  {
    |ChildSpans(n, path, k)| == ChildSizes(n, k)
  }

  ghost predicate CountedAt(n: Node, path: string, k: nat)
    requires k < Arity(n)
  {
    |ChildSpansAt(n, path, k)| == if StepTo(n, k).Some? then Size(Child(n, k)) else 0
  }

  lemma NoneCounted(n: Node, path: string)
    ensures Counted(n, path, 0)
  {
  }

  lemma {:induction false} ChildEntries(n: Node, base: Address, count: nat)
    requires UniquelyNamed(n) && SafelyNamed(n) && SafeAddress(base) && !n.data.Tagged? && count <= Arity(n)
    ensures Counted(n, Render(base), count)
    decreases n, count, 1
  {
    NoneCounted(n, Render(base));
    for k := 0 to count
      invariant Counted(n, Render(base), k)
    {
      ChildEntry(n, base, k);
      OneMoreCounted(n, base, k);
    }
  }

  lemma {:induction false} OneMoreCounted(n: Node, base: Address, k: nat)
    requires UniquelyNamed(n) && SafelyNamed(n) && SafeAddress(base) && !n.data.Tagged? && k < Arity(n)
    requires Counted(n, Render(base), k) && CountedAt(n, Render(base), k)
    ensures Counted(n, Render(base), k + 1)
  {
    EntriesAdd(n, base, k);
  }

  lemma EntriesAdd(n: Node, base: Address, k: nat)
    requires UniquelyNamed(n) && SafelyNamed(n) && SafeAddress(base) && !n.data.Tagged? && k < Arity(n)
    ensures |ChildSpans(n, Render(base), k + 1)|
            == |ChildSpans(n, Render(base), k)| + |ChildSpansAt(n, Render(base), k)|
  {
    EarlierApart(n, base, k);
    DisjointUnion(ChildSpans(n, Render(base), k), ChildSpansAt(n, Render(base), k));
  }

  lemma {:induction false} ChildEntry(n: Node, base: Address, k: nat)
    requires UniquelyNamed(n) && SafelyNamed(n) && SafeAddress(base) && !n.data.Tagged? && k < Arity(n)
    ensures CountedAt(n, Render(base), k)
    decreases n, k, 2
  {
    if StepTo(n, k).Some? {
      var step := StepTo(n, k).value;
      RenderStep(base, step);
      SafeBase(base, step);
      OneEntryPerNode(Child(n, k), base + [step]);
    }
  }

  lemma {:induction false} EarlierApart(n: Node, base: Address, k: nat)
    requires UniquelyNamed(n) && SafelyNamed(n) && SafeAddress(base) && !n.data.Tagged? && k < Arity(n)
    ensures forall p :: p in ChildSpans(n, Render(base), k) ==> p !in ChildSpansAt(n, Render(base), k)
  {
    forall p | p in ChildSpans(n, Render(base), k)
      ensures p !in ChildSpansAt(n, Render(base), k)
    {
      var j := FromSomeChild(n, Render(base), k, p);
      ChildrenApart(n, base, j, k, p);
    }
  }

  // ----- Unsafe names mislead lookup ----------------------------------------

  function OnLine(line: nat, data: Data): Node {
    Node(Marker(line, 0), Marker(line, 1), data)
  }

  function Leaf(line: nat): Node {
    OnLine(line, Value(Null))
  }

  function Named(name: string, value: Node): (Node, Node) {
    (OnLine(1, Value(Text(name))), value)
  }

  /** `x` holding two entries. */
  function UnderX(first: (Node, Node), second: (Node, Node)): Node {
    OnLine(1, Mapping([Named("x", OnLine(1, Mapping([first, second])))]))
  }

  /** A document in which the lookup of some place gives the span of another. */
  ghost predicate Misleads(n: Node, a: Address, m: Node) {
    UniquelyNamed(n) && Reaches(n, a, m) && Render(a) in Spans(n, "") && Spans(n, "")[Render(a)] != SpanOf(m)
  }

  /** Where two places with different spans share a path, one of them is looked up wrongly. */
  lemma SharedPathMisleads(n: Node, b: Address, v: Node, c: Address, w: Node) returns (a: Address, m: Node)
    requires UniquelyNamed(n) && Reaches(n, b, v) && Reaches(n, c, w)
    requires Render(b) == Render(c) && SpanOf(v) != SpanOf(w)
    ensures Misleads(n, a, m)
  {
    PlaceIsRecorded(n, [], b, v);
    assert [] + b == b;
    a, m := b, v;
    if Spans(n, "")[Render(b)] == SpanOf(v) {
      a, m := c, w;
    }
  }

  lemma {:induction false} ReachChild(n: Node, step: Segment, k: nat, a: Address, m: Node)
    requires !n.data.Tagged? && IsChild(n, step, k) && Reaches(Child(n, k), a, m)
    ensures Reaches(n, [step] + a, m)
  {
    DescendsInto(n, step, k, a, m);
  }

  lemma {:induction false} ReachHere(n: Node)
    requires !n.data.Tagged?
    ensures Reaches(n, [], n)
  {
  }

  lemma {:induction false} ReachUnderX(first: (Node, Node), second: (Node, Node), name: string, k: nat, a: Address,
                                       m: Node)
    requires k < 2 && [first, second][k].0.data == Value(Text(name)) && Reaches([first, second][k].1, a, m)
    ensures Reaches(UnderX(first, second), [Key("x"), Key(name)] + a, m)
  {
    var n := UnderX(first, second);
    var inner := n.data.entries[0].1;
    ReachChild(inner, Key(name), k, a, m);
    ReachChild(n, Key("x"), 0, [Key(name)] + a, m);
    assert [Key("x")] + ([Key(name)] + a) == [Key("x"), Key(name)] + a;
  }

  lemma UnderXIsUnique(first: (Node, Node), second: (Node, Node), p: string, q: string)
    requires first.0.data == Value(Text(p)) && second.0.data == Value(Text(q)) && p != q
    requires UniquelyNamed(first.1) && UniquelyNamed(second.1)
    ensures UniquelyNamed(UnderX(first, second))
  {
    var inner := UnderX(first, second).data.entries[0].1;
    assert StepTo(inner, 0) == Some(Key(p)) && StepTo(inner, 1) == Some(Key(q));
    assert UniquelyNamed(inner);
  }

  lemma EmptyKeyMisleads() returns (n: Node, a: Address, m: Node)
    ensures Misleads(n, a, m) && exists b, w :: Reaches(n, b, w) && Key("") in b
  {
    n := OnLine(1, Mapping([Named("", Leaf(2))]));
    ReachHere(n);
    ReachHere(Leaf(2));
    ReachChild(n, Key(""), 0, [], Leaf(2));
    var b := [Key("")] + [];
    assert b == [Key("")] && b[..0] == [];
    assert Key("") in b;
    a, m := SharedPathMisleads(n, [], n, b, Leaf(2));
  }

  /** One name holds a leaf, and a path through the other reaches a leaf on another line. */
  lemma LeavesReached(k: string, q: string, inner: Node, step: Segment, i: nat)
    requires !inner.data.Tagged? && IsChild(inner, step, i) && Child(inner, i) == Leaf(3)
    ensures Reaches(UnderX(Named(k, Leaf(2)), Named(q, inner)), [Key("x"), Key(k)], Leaf(2))
    ensures Reaches(UnderX(Named(k, Leaf(2)), Named(q, inner)), [Key("x"), Key(q), step], Leaf(3))
  {
    var first, second := Named(k, Leaf(2)), Named(q, inner);
    ReachHere(Leaf(2));
    ReachHere(Leaf(3));
    ReachUnderX(first, second, k, 0, [], Leaf(2));
    ReachChild(inner, step, i, [], Leaf(3));
    ReachUnderX(first, second, q, 1, [step] + [], Leaf(3));
    assert [Key("x"), Key(k)] + [] == [Key("x"), Key(k)];
    assert [Key("x"), Key(q)] + ([step] + []) == [Key("x"), Key(q), step];
  }

  lemma SharedByLeaves(k: string, q: string, inner: Node, step: Segment, i: nat)
    returns (n: Node, a: Address, m: Node)
    requires !inner.data.Tagged? && IsChild(inner, step, i) && Child(inner, i) == Leaf(3)
    requires UniquelyNamed(inner) && k != q
    requires Render([Key("x"), Key(k)]) == Render([Key("x"), Key(q), step])
    ensures Misleads(n, a, m) && exists b, w :: Reaches(n, b, w) && Key(k) in b
  {
    n := UnderX(Named(k, Leaf(2)), Named(q, inner));
    UnderXIsUnique(Named(k, Leaf(2)), Named(q, inner), k, q);
    LeavesReached(k, q, inner, step, i);
    a, m := SharedPathMisleads(n, [Key("x"), Key(k)], Leaf(2), [Key("x"), Key(q), step], Leaf(3));
    assert Key(k) in [Key("x"), Key(k)];
  }

  lemma DottedKeyMisleads(x: string, y: string) returns (n: Node, a: Address, m: Node)
    ensures Misleads(n, a, m) && exists b, w :: Reaches(n, b, w) && Key(x + "." + y) in b
  {
    var inner := OnLine(1, Mapping([Named(y, Leaf(3))]));
    assert |x + "." + y| > |x|;
    DottedKeyCollides("x", x, y);
    n, a, m := SharedByLeaves(x + "." + y, x, inner, Key(y), 0);
  }

  lemma ItemsAreUnique(count: nat, line: nat)
    ensures UniquelyNamed(OnLine(1, Sequence(seq(count, _ => Leaf(line)))))
  {
    var n := OnLine(1, Sequence(seq(count, _ => Leaf(line))));
    assert UniquelyNamed(Leaf(line));
    forall k | 0 <= k < Arity(n)
      ensures StepTo(n, k) == Some(Index(k)) && UniquelyNamed(Child(n, k))
    {
      assert Child(n, k) == Leaf(line);
    }
  }

  lemma IndexLikeKeyMisleads(q: string, i: nat) returns (n: Node, a: Address, m: Node)
    ensures Misleads(n, a, m) && exists b, w :: Reaches(n, b, w) && Key(Indexed(q, i)) in b
  {
    var inner := OnLine(1, Sequence(seq(i + 1, _ => Leaf(3))));
    assert |Indexed(q, i)| > |q|;
    ItemsAreUnique(i + 1, 3);
    IndexLikeKeyCollides("x", q, i);
    n, a, m := SharedByLeaves(Indexed(q, i), q, inner, Index(i), i);
  }

  /** Main result: every name that is not safe occurs in a document, its names unique, whose
      index gives some place the span of another. */
  lemma UnsafeKeyMisleads(k: string) returns (n: Node, a: Address, m: Node)
    requires !SafeKey(k)
    ensures Misleads(n, a, m) && exists b, w :: Reaches(n, b, w) && Key(k) in b
  {
    if k == "" {
      n, a, m := EmptyKeyMisleads();
    } else if '.' in k {
      var i :| 0 <= i < |k| && k[i] == '.';
      assert k == k[..i] + "." + k[i + 1..];
      n, a, m := DottedKeyMisleads(k[..i], k[i + 1..]);
    } else {
      var q, i :| k == Indexed(q, i);
      n, a, m := IndexLikeKeyMisleads(q, i);
    }
  }

  // ----- Erasure keeps the document -----------------------------------------

  /** Walking `a` down a plain document. */
  function At(v: Plain, a: Address): Option<Plain>
    decreases |a|
  {
    if a == [] then Some(v)
    else match (v, a[0])
      case (PSequence(items), Index(i)) => if i < |items| then At(items[i], a[1..]) else None
      case (PMapping(fields), Key(k)) => if k in fields.at then At(fields.at[k], a[1..]) else None
      case _ => None
  }

  lemma {:induction false} ItemErased(n: Node, k: nat, i: nat)
    requires i < k <= Arity(n)
    ensures ErasedItems(n, k)[i] == Erase(Child(n, i))
    decreases k
  {
    if i < k - 1 {
      ItemErased(n, k - 1, i);
    }
  }

  /** A field's value is the erasure of an entry of that name. */
  lemma {:induction false} FieldFrom(n: Node, k: nat, name: string) returns (j: nat)
    requires n.data.Mapping? && k <= Arity(n) && name in ErasedFields(n, k).at
    ensures j < k && StepTo(n, j) == Some(Key(name)) && ErasedFields(n, k).at[name] == Erase(Child(n, j))
  {
    if StepTo(n, k - 1) == Some(Key(name)) {
      j := k - 1;
    } else {
      j := FieldFrom(n, k - 1, name);
    }
  }

  lemma {:induction false} FieldErased(n: Node, k: nat, j: nat, name: string)
    requires UniquelyNamed(n) && n.data.Mapping? && j < k <= Arity(n) && StepTo(n, j) == Some(Key(name))
    ensures name in ErasedFields(n, k).at && ErasedFields(n, k).at[name] == Erase(Child(n, j))
    decreases k
  {
    if j < k - 1 {
      FieldErased(n, k - 1, j, name);
    }
  }

  /** The names of the first k entries, in the order they were written. */
  function NamesOf(n: Node, k: nat): seq<string>
    requires k <= Arity(n)
  {
    if k == 0 then []
    else match StepTo(n, k - 1)
      case Some(Key(name)) => NamesOf(n, k - 1) + [name]
      case _ => NamesOf(n, k - 1)
  }

  /** Fields come out in the order they were written, compound keys left out. */
  lemma {:induction false} KeysKeepOrder(n: Node, k: nat)
    requires UniquelyNamed(n) && n.data.Mapping? && k <= Arity(n)
    ensures ErasedFields(n, k).keys == NamesOf(n, k)
    decreases k
  {
    if k > 0 {
      KeysKeepOrder(n, k - 1);
      if StepTo(n, k - 1).Some? {
        NewName(n, k - 1);
      }
    }
  }

  lemma {:induction false} NewName(n: Node, k: nat)
    requires UniquelyNamed(n) && n.data.Mapping? && k < Arity(n) && StepTo(n, k).Some?
    ensures StepTo(n, k).value.Key? && StepTo(n, k).value.name !in ErasedFields(n, k).at
  {
    var name := StepTo(n, k).value.name;
    if name in ErasedFields(n, k).at {
      var j := FieldFrom(n, k, name);
    }
  }

  lemma {:induction false} AtStep(v: Plain, a: Address)
    requires a != []
    ensures At(v, a) == match At(v, [a[0]]) case None => None case Some(w) => At(w, a[1..])
  {
    assert [a[0]][1..] == [];
  }

  lemma {:induction false} ErasedChild(u: Node, step: Segment, k: nat)
    requires UniquelyNamed(u) && !u.data.Tagged? && IsChild(u, step, k)
    ensures At(Erase(u), [step]) == Some(Erase(Child(u, k)))
  {
    if u.data.Sequence? {
      ItemErased(u, Arity(u), k);
    } else {
      FieldErased(u, Arity(u), k, step.name);
    }
  }

  lemma ChildOfErased(u: Node, step: Segment) returns (k: nat)
    requires !u.data.Tagged? && At(Erase(u), [step]).Some?
    ensures IsChild(u, step, k) && At(Erase(u), [step]) == Some(Erase(Child(u, k)))
  {
    if u.data.Sequence? {
      k := step.i;
      ItemErased(u, Arity(u), k);
    } else {
      k := FieldFrom(u, Arity(u), step.name);
    }
  }

  lemma {:induction false} ErasureFollows(n: Node, a: Address, m: Node)
    requires UniquelyNamed(n) && Reaches(n, a, m)
    ensures At(Erase(n), a) == Some(Erase(m))
    decreases |a|
  {
    UntaggedKeeps(n, "");
    if a != [] {
      var u := Untagged(n);
      var k: nat :| IsChild(u, a[0], k) && Reaches(Child(u, k), a[1..], m);
      AtStep(Erase(u), a);
      ErasedChild(u, a[0], k);
      ErasureFollows(Child(u, k), a[1..], m);
    }
  }

  /** Every value of the returned document is the erasure of a node at its place. */
  lemma {:induction false} ErasureComesFrom(n: Node, a: Address) returns (m: Node)
    requires At(Erase(n), a).Some?
    ensures Reaches(n, a, m) && At(Erase(n), a) == Some(Erase(m))
    decreases |a|
  {
    UntaggedKeeps(n, "");
    var u := Untagged(n);
    if a == [] {
      m := u;
    } else {
      AtStep(Erase(u), a);
      var k := ChildOfErased(u, a[0]);
      m := ErasureComesFrom(Child(u, k), a[1..]);
    }
  }

  /** Main result: where names are unique, the plain document has a value exactly at the places
      of the tree, and it is the erasure of the node there. */
  lemma {:induction false} ErasureNavigates(n: Node, a: Address)
    requires UniquelyNamed(n)
    ensures At(Erase(n), a).Some? <==> exists m :: Reaches(n, a, m)
    ensures forall m :: Reaches(n, a, m) ==> At(Erase(n), a) == Some(Erase(m))
  {
    forall m | Reaches(n, a, m)
      ensures At(Erase(n), a) == Some(Erase(m))
    {
      ErasureFollows(n, a, m);
    }
    if At(Erase(n), a).Some? {
      var m := ErasureComesFrom(n, a);
      assert Reaches(n, a, m);
    }
  }

  /** Main result: the index covers the returned document, no less and no more. */
  lemma {:induction false} IndexCoversDocument(n: Node, p: string)
    requires UniquelyNamed(n)
    ensures p in Spans(n, "") <==> exists a :: At(Erase(n), a).Some? && p == Render(a)
  {
    if p in Spans(n, "") {
      var a, m := IndexIsSound(n, [], p);
      assert [] + a == a;
      ErasureNavigates(n, a);
    }
    forall a | At(Erase(n), a).Some? && p == Render(a)
      ensures p in Spans(n, "")
    {
      ErasureNavigates(n, a);
      var m :| Reaches(n, a, m);
      PlaceIsRecorded(n, [], a, m);
      assert [] + a == a;
    }
  }

  // ----- What stands at a place ---------------------------------------------

  /** The scalar a plain value was, where it was one. */
  function ReadBack(v: Plain): Option<Scalar> {
    match v
    case PNull => Some(Null)
    case PBool(b) => Some(Boolean(b))
    case PInteger(i) => Some(Integer(i))
    case PFloat(text) => Some(FloatingPoint(text))
    case PString(s) => Some(Text(s))
    case _ => None
  }

  /** What a reader of the plain document sees of a node: its scalar, its raw text, nothing for
      an alias, as many items or the written names. */
  ghost predicate Shows(m: Node, v: Plain) {
    match m.data
    case Value(scalar) => ReadBack(v) == Some(scalar)
    case Representation(raw) => ReadBack(v) == Some(Text(raw))
    case Sequence(items) => v.PSequence? && |v.items| == |items|
    case Mapping(entries) => v.PMapping? && v.fields.keys == NamesOf(m, |entries|)
    case Tagged(inner) => Shows(inner, v)
    case _ => ReadBack(v) == Some(Null)
  }

  lemma {:induction false} ErasedShows(m: Node)
    requires UniquelyNamed(m)
    ensures Shows(m, Erase(m))
  {
    if m.data.Tagged? {
      ErasedShows(m.data.inner);
    } else if m.data.Mapping? {
      KeysKeepOrder(m, Arity(m));
    }
  }

  lemma {:induction false} ReachedIsUnique(n: Node, a: Address, m: Node)
    requires UniquelyNamed(n) && Reaches(n, a, m)
    ensures UniquelyNamed(m)
    decreases |a|
  {
    UntaggedKeeps(n, "");
    if a != [] {
      var u := Untagged(n);
      var k: nat :| IsChild(u, a[0], k) && Reaches(Child(u, k), a[1..], m);
      ReachedIsUnique(Child(u, k), a[1..], m);
    }
  }

  /** Main result: where names are unique, the plain document shows at every place what the
      tree holds there. */
  lemma {:induction false} DocumentShowsTree(n: Node, a: Address, m: Node)
    requires UniquelyNamed(n) && Reaches(n, a, m)
    ensures At(Erase(n), a).Some? && Shows(m, At(Erase(n), a).value)
  {
    ErasureNavigates(n, a);
    ReachedIsUnique(n, a, m);
    ErasedShows(m);
  }

  /** The node's own markers: columns counted from one, numbers of 32 bits; a node without an end
      marker ends where it starts. */
  ghost predicate MarkersOf(m: Node, span: Span) {
    && span.line == m.start.line % 0x1_0000_0000
    && span.col == (m.start.col + 1) % 0x1_0000_0000
    && span.endLine == m.end.line % 0x1_0000_0000
    && span.endCol == if m.end == Marker(0, 0) then span.col else (m.end.col + 1) % 0x1_0000_0000
  }

  lemma OneBasedWraps(col: nat)
    ensures OneBased(col) == (col + 1) % 0x1_0000_0000
  {
  }

  lemma SpanHasMarkers(m: Node)
    ensures MarkersOf(m, SpanOf(m))
  {
    OneBasedWraps(m.start.col);
    OneBasedWraps(m.end.col);
  }

  /** Main result: the span found under a place's path has the markers of the node there. */
  lemma {:induction false} LookupGivesMarkers(n: Node, a: Address, m: Node)
    requires UniquelyNamed(n) && SafelyNamed(n) && Reaches(n, a, m)
    ensures Render(a) in Spans(n, "") && MarkersOf(m, Spans(n, "")[Render(a)])
  {
    LookupFindsNode(n, [], a, m);
    assert [] + a == a;
    SpanHasMarkers(m);
  }

  /** A text key is its own name; other scalars go by what they print as; compound keys have no
      name. */
  lemma KeyNames(key: Node)
    ensures KeyText(key).Some? <==> key.data.Value?
    ensures key.data.Value? ==>
              KeyText(key).value == if key.data.scalar.Text? then key.data.scalar.s else DebugText(key.data.scalar)
  {
  }

  lemma NamesOfConstants(b: bool)
    ensures DebugText(Null) == "Null" && DebugText(Boolean(b)) == "Boolean(" + (if b then "true" else "false") + ")"
  {
  }

  lemma NamesOfNumbers(i: int, text: string)
    ensures i >= 0 ==> DebugText(Integer(i)) == "Integer(" + Decimal(i) + ")"
    ensures i < 0 ==> DebugText(Integer(i)) == "Integer(-" + Decimal(-i) + ")"
    ensures DebugText(FloatingPoint(text)) == "FloatingPoint(" + text + ")"
  {
  }

  lemma SignedDiffers(i: int, j: int)
    requires Signed(i) == Signed(j)
    ensures i == j
  {
    var s := Signed(i);
    assert s[0] in s;
    if i < 0 && j < 0 {
      assert Decimal(-i) == s[1..] && Decimal(-j) == s[1..];
      DecimalInjective(-i, -j);
    } else if i >= 0 && j >= 0 {
      DecimalInjective(i, j);
    } else {
      DecimalReadsBack(if i < 0 then j else i);
    }
  }

  lemma NamesDiffer(p: Scalar, q: Scalar)
    requires !p.Text? && !q.Text? && DebugText(p) == DebugText(q)
    ensures p == q
  {
    var s, t := DebugText(p), DebugText(q);
    assert s[0] == t[0];
    if p.FloatingPoint? {
      assert p.text == s[14..|s| - 1] && q.text == t[14..|t| - 1];
    } else if p.Boolean? {
      assert s[8] == t[8];
    } else if p.Integer? {
      assert s[8..|s| - 1] == Signed(p.i) && t[8..|t| - 1] == Signed(q.i);
      SignedDiffers(p.i, q.i);
    }
  }

  // ----- Parsing a document -------------------------------------------------

  datatype ParseError = EmptyDocument

  /** The first document of a file, with the index of its spans. */
  method ParseWithSpans(docs: seq<Node>, file: string) returns (value: Result<Plain, ParseError>, index: SpanMap)
    ensures fresh(index) && index.file == file
    ensures docs == [] ==> value == Err(EmptyDocument) && index.Len() == 0
    ensures docs != [] ==> value == Ok(Erase(docs[0])) && index.inner == Spans(docs[0], "")
    ensures docs != [] && UniquelyNamed(docs[0]) && SafelyNamed(docs[0]) ==> index.Len() == Size(docs[0])
  {
    index := new SpanMap(file);
    if docs == [] {
      return Err(EmptyDocument), index;
    }
    var plain := WalkNode(docs[0], "", index);
    if UniquelyNamed(docs[0]) && SafelyNamed(docs[0]) {
      OneEntryPerNode(docs[0], []);
    }
    return Ok(plain), index;
  }
}
