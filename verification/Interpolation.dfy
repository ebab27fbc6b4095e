/** Environment placeholders in configuration text: the scanner, its grammar, and why the
    scanner gives every text the meaning the grammar gives it. */
module Interpolation {
  import opened Prelude

  datatype Error =
    | Unterminated
    | EmptyPlaceholder
    | MissingName
    | NotSet(name: string)

  type Environment = map<string, string>

  // ----- Searching ----------------------------------------------------------

  predicate OccursAt(s: string, pattern: string, i: nat) {
    i + |pattern| <= |s| && s[i..i + |pattern|] == pattern
  }

  /** The first occurrence. */
  function Find(s: string, pattern: string): (at: Option<nat>)
    ensures at.Some? ==> OccursAt(s, pattern, at.value)
  {
    if OccursAt(s, pattern, 0) then Some(0)
    else if s == "" then None
    else
      var rest := Find(s[1..], pattern);
      if rest.None? then None
      else
        Later(s, pattern, rest.value + 1);
        Some(rest.value + 1)
  }

  lemma Later(s: string, pattern: string, i: nat)
    requires 0 < i <= |s|
    ensures OccursAt(s, pattern, i) <==> OccursAt(s[1..], pattern, i - 1)
  {
    if i + |pattern| <= |s| {
      assert s[i..i + |pattern|] == s[1..][i - 1..i - 1 + |pattern|];
    }
  }

  /** Nothing occurs before it. */
  lemma {:induction false} NotBefore(s: string, pattern: string, i: nat)
    requires i <= |s| && (Find(s, pattern).Some? ==> i < Find(s, pattern).value)
    ensures !OccursAt(s, pattern, i)
  {
    if i > 0 {
      Later(s, pattern, i);
      NotBefore(s[1..], pattern, i - 1);
    }
  }

  lemma {:induction false} FirstIsFound(s: string, pattern: string, k: nat)
    requires OccursAt(s, pattern, k)
    requires forall i :: 0 <= i < k ==> !OccursAt(s, pattern, i)
    ensures Find(s, pattern) == Some(k)
  {
    var found := Find(s, pattern);
    if found.None? || k < found.value {
      NotBefore(s, pattern, k);
    }
  }

  // ----- The scanner --------------------------------------------------------

  /** What stands between the braces: the name ends at the first colon. */
  function Resolve(env: Environment, body: string): Result<string, Error> {
    if body == "" then Err(EmptyPlaceholder)
    else
      var colon := Find(body, ":");
      var name := if colon.Some? then body[..colon.value] else body;
      if name == "" then Err(MissingName)
      else if name in env then Ok(env[name])
      else if colon.Some? then Ok(body[colon.value + 1..])
      else Err(NotSet(name))
  }

  function Prepend(s: string, r: Result<string, Error>): Result<string, Error> {
    match r
    case Ok(t) => Ok(s + t)
    case Err(e) => Err(e)
  }

  /** The first failure wins. */
  function Join(first: Result<string, Error>, next: Result<string, Error>): Result<string, Error> {
    if first.Err? then first else Prepend(first.value, next)
  }

  /** What the scanner makes of the text from one point on. */
  function Interpolated(env: Environment, s: string): Result<string, Error>
    decreases |s|, 0
  {
    var start := Find(s, "${");
    if start.None? then Ok(s) else Opened(env, s[..start.value], s[start.value + 2..])
  }

  /** Behind an opening brace, with `text` standing before it. */
  function Opened(env: Environment, text: string, rest: string): Result<string, Error>
    decreases |rest|, 1
  {
    var end := Find(rest, "}");
    if end.None? then Err(Unterminated) else Closed(env, text, rest[..end.value], rest[end.value + 1..])
  }

  function Closed(env: Environment, text: string, body: string, next: string): Result<string, Error>
    decreases |next|, 1
  {
    var value := Resolve(env, body);
    if value.Err? then value else Prepend(text + value.value, Interpolated(env, next))
  }

  lemma PrependTwice(s: string, t: string, r: Result<string, Error>)
    ensures Prepend(s, Prepend(t, r)) == Prepend(s + t, r)
  {
    if r.Ok? {
      assert s + (t + r.value) == s + t + r.value;
    }
  }

  lemma PrependNothing(r: Result<string, Error>)
    ensures Prepend("", r) == r
  {
    if r.Ok? {
      assert "" + r.value == r.value;
    }
  }

  lemma Rest(s: string, i: nat, j: nat)
    requires i + j <= |s|
    ensures s[i..][j..] == s[i + j..] && s[i..i + j] == s[i..][..j]
  {
  }

  lemma {:induction false} OpenedAt(env: Environment, s: string, index: nat, start: nat)
    requires index <= start && start + 2 <= |s| && Find(s[index..], "${") == Some(start - index)
    ensures Interpolated(env, s[index..]) == Opened(env, s[index..start], s[start + 2..])
  {
    Rest(s, index, start - index);
    Rest(s, index, start - index + 2);
  }

  lemma {:induction false} ClosedAt(env: Environment, text: string, s: string, index: nat, end: nat)
    requires index <= end < |s| && Find(s[index..], "}") == Some(end - index)
    ensures Opened(env, text, s[index..]) == Closed(env, text, s[index..end], s[end + 1..])
  {
    Rest(s, index, end - index);
    Rest(s, index, end - index + 1);
  }

  /** What has been written so far, and what is left to read. */
  ghost predicate SoFar(env: Environment, s: string, result: string, index: nat) {
    index <= |s| && Interpolated(env, s) == Prepend(result, Interpolated(env, s[index..]))
  }

  lemma Appended(result: string, text: string, value: string, later: Result<string, Error>)
    ensures Prepend(result, Prepend(text + value, later)) == Prepend(result + text + value, later)
  {
    PrependTwice(result, text + value, later);
    assert result + (text + value) == result + text + value;
  }

  lemma Advances(env: Environment, s: string, result: string, index: nat, start: nat, text: string)
    requires SoFar(env, s, result, index) && index <= start <= |s| - 2 && text == s[index..start]
    requires Find(s[index..], "${") == Some(start - index)
    ensures Interpolated(env, s) == Prepend(result, Opened(env, text, s[start + 2..]))
  {
    OpenedAt(env, s, index, start);
  }

  /** One pass from left to right; `index` is where the unread text begins. */
  method InterpolateEnv(env: Environment, yaml: string) returns (res: Result<string, Error>)
    ensures res == Interpolated(env, yaml)
  {
    var result := "";
    var index := 0;
    var offset := Find(yaml, "${");
    PrependNothing(Interpolated(env, yaml));
    assert yaml[0..] == yaml;
    while offset.Some?
      invariant index <= |yaml|
      invariant offset == Find(yaml[index..], "${")
      invariant SoFar(env, yaml, result, index)
      decreases |yaml| - index
    {
      var start := index + offset.value;
      var text := yaml[index..start];
      Advances(env, yaml, result, index, start, text);
      var read := ReadPlaceholder(env, yaml, start, text);
      if read.Err? {
        return Err(read.error);
      }
      Appended(result, text, read.value.0, Interpolated(env, yaml[read.value.1..]));
      result := result + text;
      result := result + read.value.0;
      index := read.value.1;
      offset := Find(yaml[index..], "${");
    }
    result := result + yaml[index..];
    res := Ok(result);
  }

  /** The value of the placeholder opened at `start`, and where the text goes on. */
  method ReadPlaceholder(env: Environment, yaml: string, start: nat, ghost text: string)
    returns (res: Result<(string, nat), Error>)
    requires start + 2 <= |yaml|
    ensures res.Err? ==> Opened(env, text, yaml[start + 2..]) == Err(res.error)
    ensures res.Ok? ==> start < res.value.1 <= |yaml|
    ensures res.Ok? ==>
              Opened(env, text, yaml[start + 2..]) ==
              Prepend(text + res.value.0, Interpolated(env, yaml[res.value.1..]))
  {
    var placeholderStart := start + 2;
    var found := Find(yaml[placeholderStart..], "}");
    if found.None? {
      return Err(Unterminated);
    }
    var end := placeholderStart + found.value;
    ClosedAt(env, text, yaml, placeholderStart, end);
    var value := ResolveBody(env, yaml[placeholderStart..end]);
    if value.Err? {
      return Err(value.error);
    }
    res := Ok((value.value, end + 1));
  }

  method ResolveBody(env: Environment, body: string) returns (res: Result<string, Error>)
    ensures res == Resolve(env, body)
  {
    if body == "" {
      return Err(EmptyPlaceholder);
    }
    var name, default := body, None;
    var colon := Find(body, ":");
    if colon.Some? {
      name, default := body[..colon.value], Some(body[colon.value + 1..]);
    }
    if name == "" {
      return Err(MissingName);
    }
    if name in env {
      return Ok(env[name]);
    }
    if default.None? {
      return Err(NotSet(name));
    }
    return Ok(default.value);
  }

  // ----- The grammar --------------------------------------------------------

  datatype Token =
    | Literal(text: string)
    | Placeholder(name: string, default: Option<string>)

  predicate Free(s: string, pattern: string) {
    Find(s, pattern).None?
  }

  predicate WellFormed(t: Token) {
    match t
    case Literal(text) => Free(text, "${")
    case Placeholder(name, default) =>
      && name != "" && ':' !in name && '}' !in name
      && (default.Some? ==> '}' !in default.value)
  }

  function Body(name: string, default: Option<string>): string {
    name + if default.Some? then ":" + default.value else ""
  }

  function Print(t: Token): string {
    match t
    case Literal(text) => text
    case Placeholder(name, default) => "${" + Body(name, default) + "}"
  }

  function PrintAll(ts: seq<Token>): string {
    if ts == [] then "" else Print(ts[0]) + PrintAll(ts[1..])
  }

  /** Well-formed tokens, no two literals in a row. */
  predicate Sentence(ts: seq<Token>) {
    ts == [] || (WellFormed(ts[0]) && Sentence(ts[1..])
                 && (ts[0].Literal? && |ts| > 1 ==> ts[1].Placeholder?))
  }

  function Meaning(env: Environment, t: Token): Result<string, Error> {
    match t
    case Literal(text) => Ok(text)
    case Placeholder(name, default) =>
      if name in env then Ok(env[name])
      else if default.Some? then Ok(default.value)
      else Err(NotSet(name))
  }

  /** Meanings joined as they are: a value is never read again for placeholders. */
  function MeaningAll(env: Environment, ts: seq<Token>): Result<string, Error> {
    if ts == [] then Ok("") else Join(Meaning(env, ts[0]), MeaningAll(env, ts[1..]))
  }

  /** Text that starts with a placeholder the grammar rejects. */
  predicate Malformed(s: string) {
    OccursAt(s, "${", 0) &&
    var end := Find(s[2..], "}");
    end.None? || end.value == 0 || s[2] == ':'
  }

  function Complaint(s: string): Error
    requires Malformed(s)
  {
    var end := Find(s[2..], "}");
    if end.None? then Unterminated else if end.value == 0 then EmptyPlaceholder else MissingName
  }

  // ----- The scanner follows the grammar ------------------------------------

  /** Where a literal can stop: at the end of the text, or before a placeholder. */
  predicate Stops(s: string) {
    s == "" || OccursAt(s, "${", 0)
  }

  lemma OpenAt(s: string, i: nat)
    requires i + 2 <= |s|
    ensures OccursAt(s, "${", i) <==> s[i] == '$' && s[i + 1] == '{'
  {
    if s[i] == '$' && s[i + 1] == '{' {
      assert s[i..i + 2] == "${";
    }
  }

  lemma CharAt(s: string, c: char, i: nat)
    requires i < |s|
    ensures OccursAt(s, [c], i) <==> s[i] == c
  {
    if s[i] == c {
      assert s[i..i + 1] == [c];
    }
  }

  lemma {:induction false} LiteralRuns(text: string, rest: string)
    requires Free(text, "${") && Stops(rest)
    ensures Find(text + rest, "${") == if rest == "" then None else Some(|text|)
  {
    var s := text + rest;
    if rest == "" {
      assert s == text;
    } else {
      OpenAt(rest, 0);
      OpenAt(s, |text|);
      forall i | 0 <= i < |text|
        ensures !OccursAt(s, "${", i)
      {
        OpenAt(s, i);
        NotBefore(text, "${", i);
        if i + 2 <= |text| {
          OpenAt(text, i);
        }
      }
      FirstIsFound(s, "${", |text|);
    }
  }

  lemma {:induction false} CharFound(s: string, c: char, rest: string)
    requires c !in s
    ensures Find(s + [c] + rest, [c]) == Some(|s|)
  {
    var t := s + [c] + rest;
    CharAt(t, c, |s|);
    forall i | 0 <= i < |s|
      ensures !OccursAt(t, [c], i)
    {
      CharAt(t, c, i);
      assert t[i] == s[i] && s[i] in s;
    }
    FirstIsFound(t, [c], |s|);
  }

  lemma {:induction false} CharAbsent(s: string, c: char)
    ensures c !in s <==> Find(s, [c]).None?
  {
    var found := Find(s, [c]);
    if found.Some? {
      CharAt(s, c, found.value);
    } else {
      forall i | 0 <= i < |s|
        ensures s[i] != c
      {
        NotBefore(s, [c], i);
        CharAt(s, c, i);
      }
    }
  }

  lemma BodyResolves(env: Environment, name: string, default: Option<string>)
    requires WellFormed(Placeholder(name, default))
    ensures Resolve(env, Body(name, default)) == Meaning(env, Placeholder(name, default))
  {
    if default.Some? {
      assert Body(name, default) == name + [':'] + default.value;
      CharFound(name, ':', default.value);
      assert Body(name, default)[..|name|] == name;
      assert Body(name, default)[|name| + 1..] == default.value;
    } else {
      assert Body(name, default) == name;
      CharAbsent(name, ':');
    }
  }

  lemma {:induction false} OpenedText(env: Environment, text: string, rest: string)
    ensures Opened(env, text, rest) == Prepend(text, Opened(env, "", rest))
  {
    var end := Find(rest, "}");
    if end.Some? {
      ClosedText(env, text, rest[..end.value], rest[end.value + 1..]);
    }
  }

  lemma {:induction false} ClosedText(env: Environment, text: string, body: string, next: string)
    ensures Closed(env, text, body, next) == Prepend(text, Closed(env, "", body, next))
  {
    var value := Resolve(env, body);
    if value.Ok? {
      assert "" + value.value == value.value;
      PrependTwice(text, value.value, Interpolated(env, next));
    }
  }

  lemma {:induction false} ScansLiteral(env: Environment, text: string, rest: string)
    requires Free(text, "${") && Stops(rest)
    ensures Interpolated(env, text + rest) == Prepend(text, Interpolated(env, rest))
  {
    LiteralRuns(text, rest);
    if rest != "" {
      var s := text + rest;
      FirstIsFound(rest, "${", 0);
      assert s[|text| + 2..] == rest[2..] && s[..|text|] == text && rest[..0] == "";
      OpenedText(env, text, rest[2..]);
    } else {
      assert text + rest == text && text + "" == text;
    }
  }

  lemma {:induction false} ScansPlaceholder(env: Environment, name: string, default: Option<string>, rest: string)
    requires WellFormed(Placeholder(name, default))
    ensures var p := Placeholder(name, default);
            Interpolated(env, Print(p) + rest) == Join(Meaning(env, p), Interpolated(env, rest))
  {
    var body := Body(name, default);
    var s := Print(Placeholder(name, default)) + rest;
    OpenAt(s, 0);
    FirstIsFound(s, "${", 0);
    assert s[2..] == body + ['}'] + rest && s[..0] == "";
    assert Interpolated(env, s) == Opened(env, "", body + ['}'] + rest);
    BodyHasNoBrace(name, default);
    OpenedBody(env, body, rest);
    BodyResolves(env, name, default);
  }

  lemma {:induction false} OpenedBody(env: Environment, body: string, rest: string)
    requires '}' !in body
    ensures Opened(env, "", body + ['}'] + rest) == Join(Resolve(env, body), Interpolated(env, rest))
  {
    var s := body + ['}'] + rest;
    CharFound(body, '}', rest);
    assert s[..|body|] == body && s[|body| + 1..] == rest;
    assert Opened(env, "", s) == Closed(env, "", body, rest);
    if Resolve(env, body).Ok? {
      assert "" + Resolve(env, body).value == Resolve(env, body).value;
    }
  }

  lemma BodyHasNoBrace(name: string, default: Option<string>)
    requires WellFormed(Placeholder(name, default))
    ensures '}' !in Body(name, default)
  {
  }

  lemma {:induction false} SentenceStops(ts: seq<Token>, tail: string)
    requires Sentence(ts) && Stops(tail) && (ts != [] ==> ts[0].Placeholder?)
    ensures Stops(PrintAll(ts) + tail)
  {
    if ts == [] {
      assert PrintAll(ts) + tail == tail;
    } else {
      OpenAt(PrintAll(ts) + tail, 0);
    }
  }

  /** Main result: a printed sentence is read token by token, and scanning goes on behind it. */
  lemma {:induction false} ScansSentence(env: Environment, ts: seq<Token>, tail: string)
    requires Sentence(ts) && Stops(tail)
    ensures Interpolated(env, PrintAll(ts) + tail) == Join(MeaningAll(env, ts), Interpolated(env, tail))
    decreases |ts|
  {
    if ts == [] {
      assert PrintAll(ts) + tail == tail;
      PrependNothing(Interpolated(env, tail));
    } else {
      var rest := PrintAll(ts[1..]) + tail;
      assert PrintAll(ts) + tail == Print(ts[0]) + rest;
      ScansSentence(env, ts[1..], tail);
      match ts[0] {
        case Literal(text) =>
          SentenceStops(ts[1..], tail);
          ScansLiteral(env, text, rest);
        case Placeholder(name, default) =>
          ScansPlaceholder(env, name, default, rest);
      }
      if Meaning(env, ts[0]).Ok? && MeaningAll(env, ts[1..]).Ok? {
        PrependTwice(Meaning(env, ts[0]).value, MeaningAll(env, ts[1..]).value, Interpolated(env, tail));
      }
    }
  }

  /** Main result: printing a sentence and interpolating it gives its meaning. */
  lemma {:induction false} PrintThenInterpolate(env: Environment, ts: seq<Token>)
    requires Sentence(ts)
    ensures Interpolated(env, PrintAll(ts)) == MeaningAll(env, ts)
  {
    ScansSentence(env, ts, "");
    assert PrintAll(ts) + "" == PrintAll(ts);
    assert Interpolated(env, "") == Ok("");
    if MeaningAll(env, ts).Ok? {
      assert MeaningAll(env, ts).value + "" == MeaningAll(env, ts).value;
    }
  }

  lemma {:induction false} MalformedComplains(env: Environment, s: string)
    requires Malformed(s)
    ensures Interpolated(env, s) == Err(Complaint(s))
  {
    FirstIsFound(s, "${", 0);
    var end := Find(s[2..], "}");
    assert Interpolated(env, s) == Opened(env, s[..0], s[2..]);
    if end.Some? {
      assert Opened(env, s[..0], s[2..]) == Closed(env, s[..0], s[2..][..end.value], s[2..][end.value + 1..]);
    }
    if end.Some? && end.value > 0 {
      var body := s[2..][..end.value];
      assert body[0] == ':';
      CharAt(body, ':', 0);
      FirstIsFound(body, ":", 0);
    }
  }

  /** A text is a sentence followed by nothing or by something malformed. */
  ghost predicate Reads(s: string, ts: seq<Token>, tail: string) {
    Sentence(ts) && s == PrintAll(ts) + tail && (tail == "" || Malformed(tail))
  }

  lemma ReadsMore(t: Token, rest: string, ts: seq<Token>, tail: string)
    requires WellFormed(t) && Reads(rest, ts, tail) && (t.Literal? && ts != [] ==> ts[0].Placeholder?)
    ensures Reads(Print(t) + rest, [t] + ts, tail)
  {
    var all := [t] + ts;
    assert all[1..] == ts;
    assert Print(t) + (PrintAll(ts) + tail) == Print(t) + PrintAll(ts) + tail;
  }

  /** Every text is one. */
  lemma {:induction false} EveryTextSplits(s: string) returns (ts: seq<Token>, tail: string)
    ensures Reads(s, ts, tail)
    ensures Stops(s) ==> ts == [] || ts[0].Placeholder?
    decreases |s|, 1
  {
    var start := Find(s, "${");
    ts, tail := [], s;
    if s == "" || Malformed(s) {
      assert PrintAll([]) + s == s;
    } else if start == Some(0) {
      ts, tail := SplitPlaceholder(s);
    } else {
      var k := if start.Some? then start.value else |s|;
      LiteralPrefix(s, k);
      var later;
      later, tail := EveryTextSplits(s[k..]);
      ts := [Literal(s[..k])] + later;
      ReadsMore(Literal(s[..k]), s[k..], later, tail);
      assert s == s[..k] + s[k..];
    }
  }

  lemma {:induction false} LiteralPrefix(s: string, k: nat)
    requires s != "" && Find(s, "${") != Some(0) && k == (if Find(s, "${").Some? then Find(s, "${").value else |s|)
    ensures 0 < k <= |s| && Free(s[..k], "${") && Stops(s[k..])
  {
    var cut := s[..k];
    var found := Find(cut, "${");
    if found.Some? {
      OpenAt(cut, found.value);
      OpenAt(s, found.value);
      NotBefore(s, "${", found.value);
    }
    if k < |s| {
      OpenAt(s, k);
      OpenAt(s[k..], 0);
    }
  }

  lemma {:induction false} SplitPlaceholder(s: string) returns (ts: seq<Token>, tail: string)
    requires Find(s, "${") == Some(0) && !Malformed(s)
    ensures Reads(s, ts, tail) && ts != [] && ts[0].Placeholder?
    decreases |s|, 0
  {
    var body, rest := PlaceholderPieces(s);
    var p := ParsePlaceholder(body);
    PlaceholderParsed(body);
    var later;
    later, tail := EveryTextSplits(rest);
    ts := [p] + later;
    ReadsMore(p, rest, later, tail);
  }

  lemma PlaceholderPieces(s: string) returns (body: string, rest: string)
    requires Find(s, "${") == Some(0) && !Malformed(s)
    ensures s == "${" + body + "}" + rest && |rest| < |s|
    ensures body != "" && body[0] != ':' && '}' !in body
  {
    var behind := s[2..];
    var end := Find(behind, "}").value;
    body, rest := behind[..end], behind[end + 1..];
    NoBraceBefore(behind, end);
    CharAt(behind, '}', end);
    assert behind == body + "}" + rest;
  }

  function ParsePlaceholder(body: string): Token {
    var colon := Find(body, ":");
    if colon.Some? then Placeholder(body[..colon.value], Some(body[colon.value + 1..])) else Placeholder(body, None)
  }

  lemma {:induction false} NoBraceBefore(rest: string, end: nat)
    requires Find(rest, "}") == Some(end)
    ensures '}' !in rest[..end]
  {
    forall i | 0 <= i < end
      ensures rest[i] != '}'
    {
      NotBefore(rest, "}", i);
      CharAt(rest, '}', i);
    }
  }

  lemma PlaceholderParsed(body: string)
    requires body != "" && body[0] != ':' && '}' !in body
    ensures var p := ParsePlaceholder(body); WellFormed(p) && Print(p) == "${" + body + "}"
  {
    var colon := Find(body, ":");
    CharAbsent(body, ':');
    if colon.Some? {
      var k := colon.value;
      CharAt(body, ':', k);
      forall i | 0 <= i < k
        ensures body[i] != ':'
      {
        NotBefore(body, ":", i);
        CharAt(body, ':', i);
      }
      assert body == body[..k] + ":" + body[k + 1..];
    }
  }

  /** Main result: interpolation succeeds exactly on printed sentences all of whose variables
      are set or have a default. */
  lemma {:induction false} SucceedsExactly(env: Environment, s: string, v: string)
    ensures Interpolated(env, s) == Ok(v) <==> exists ts :: Reads(s, ts, "") && MeaningAll(env, ts) == Ok(v)
  {
    if Interpolated(env, s) == Ok(v) {
      var ts, tail := EveryTextSplits(s);
      ScansSentence(env, ts, tail);
      if tail != "" {
        MalformedComplains(env, tail);
      }
      assert PrintAll(ts) + "" == PrintAll(ts);
      PrintThenInterpolate(env, ts);
      assert Reads(s, ts, "");
    }
    forall ts | Reads(s, ts, "") && MeaningAll(env, ts) == Ok(v)
      ensures Interpolated(env, s) == Ok(v)
    {
      assert PrintAll(ts) + "" == PrintAll(ts);
      PrintThenInterpolate(env, ts);
    }
  }

  /** Main result: it fails exactly when a variable of the leading sentence is unset without a
      default, or the sentence is followed by an unterminated, empty or nameless placeholder. */
  lemma {:induction false} FailsExactly(env: Environment, s: string, e: Error)
    ensures Interpolated(env, s) == Err(e) <==>
            exists ts, tail :: Reads(s, ts, tail) &&
              (MeaningAll(env, ts) == Err(e) || (MeaningAll(env, ts).Ok? && Malformed(tail) && Complaint(tail) == e))
  {
    if Interpolated(env, s) == Err(e) {
      var ts, tail := EveryTextSplits(s);
      ScansSentence(env, ts, tail);
      if Malformed(tail) {
        MalformedComplains(env, tail);
      }
      assert Reads(s, ts, tail);
    }
    forall ts, tail | Reads(s, ts, tail)
      && (MeaningAll(env, ts) == Err(e) || (MeaningAll(env, ts).Ok? && Malformed(tail) && Complaint(tail) == e))
      ensures Interpolated(env, s) == Err(e)
    {
      ScansSentence(env, ts, tail);
      if Malformed(tail) {
        MalformedComplains(env, tail);
      }
    }
  }
}
