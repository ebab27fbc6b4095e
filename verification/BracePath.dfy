/** Turning `:param` into `{param}` in endpoint paths. */
module BracePath {
  import opened Strings

  /** A colon with an identifier behind it. */
  predicate ParamAt(s: string, i: nat) {
    i + 1 < |s| && s[i] == ':' && IsIdentStart(s[i + 1])
  }

  /** Length of the longest run of identifier characters at the front. */
  function RunLength(s: string): (n: nat)
    ensures n <= |s|
    ensures forall i :: 0 <= i < n ==> IsIdentContinue(s[i])
    ensures n < |s| ==> !IsIdentContinue(s[n])
  {
    if s != "" && IsIdentContinue(s[0]) then RunLength(s[1..]) + 1 else 0
  }

  /** The parameter name behind the colon at `i`. */
  function NameAt(s: string, i: nat): string
    requires i < |s|
  {
    s[i + 1..][..RunLength(s[i + 1..])]
  }

  function ToBrace(s: string): string
    decreases |s|
  {
    if s == "" then ""
    else if ParamAt(s, 0) then "{" + NameAt(s, 0) + "}" + ToBrace(s[1 + |NameAt(s, 0)|..])
    else [s[0]] + ToBrace(s[1..])
  }

  lemma {:induction false} ToBraceParam(s: string, name: string, rest: string)
    requires s == ":" + name + rest && name != "" && IsIdentStart(name[0])
    requires RunLength(name + rest) == |name|
    ensures NameAt(s, 0) == name && ToBrace(s) == "{" + name + "}" + ToBrace(rest)
  {
    Parts(s, name, rest);
    assert ParamAt(s, 0);
    assert NameAt(s, 0) == name;
  }

  lemma Parts(s: string, name: string, rest: string)
    requires s == ":" + name + rest && name != ""
    ensures s[1..] == name + rest && (name + rest)[..|name|] == name && s[1 + |name|..] == rest && s[1] == name[0]
  {
  }

  lemma {:induction false} ToBraceChar(c: char, rest: string)
    requires !ParamAt([c] + rest, 0)
    ensures ToBrace([c] + rest) == [c] + ToBrace(rest)
  {
    assert ([c] + rest)[1..] == rest;
  }

  lemma Prefixes(a: string, b: string, c: string)
    ensures a + b + c == a + (b + c)
  {
  }

  /** Scans left to right; `i` is the next unread position. */
  method ToBracePath(path: string) returns (out: string)
    ensures out == ToBrace(path)
  {
    out := "";
    var i := 0;
    assert path[0..] == path;
    while i < |path|
      invariant i <= |path|
      invariant ToBrace(path) == out + ToBrace(path[i..])
      decreases |path| - i
    {
      ghost var unread := path[i..];
      if path[i] == ':' && i + 1 < |path| && IsIdentStart(path[i + 1]) {
        var start := i + 1;
        var end := IdentEnd(path, start);
        ghost var name := path[start..end];
        ParamRead(path, i, end);
        Prefixes(out, "{" + name + "}", ToBrace(path[end..]));
        assert out + "{" + name + "}" == out + ("{" + name + "}");
        out := out + "{" + path[start..end] + "}";
        i := end;
      } else {
        assert unread == [path[i]] + path[i + 1..];
        ToBraceChar(path[i], path[i + 1..]);
        Prefixes(out, [path[i]], ToBrace(path[i + 1..]));
        out := out + [path[i]];
        i := i + 1;
      }
    }
    assert path[i..] == "";
  }

  /** The end of the identifier that starts at `start`. */
  method IdentEnd(path: string, start: nat) returns (end: nat)
    requires start < |path| && IsIdentStart(path[start])
    ensures start < end <= |path|
    ensures forall k :: start <= k < end ==> IsIdentContinue(path[k])
    ensures end < |path| ==> !IsIdentContinue(path[end])
  {
    end := start + 1;
    while end < |path| && IsIdentContinue(path[end])
      invariant start < end <= |path|
      invariant forall k :: start <= k < end ==> IsIdentContinue(path[k])
    {
      end := end + 1;
    }
  }

  lemma {:induction false} RunIs(s: string, n: nat)
    requires n <= |s| && (forall k :: 0 <= k < n ==> IsIdentContinue(s[k])) && (n < |s| ==> !IsIdentContinue(s[n]))
    ensures RunLength(s) == n
  {
    if n > 0 {
      assert forall k :: 0 <= k < n - 1 ==> s[1..][k] == s[k + 1];
      RunIs(s[1..], n - 1);
    }
  }

  lemma ParamRead(path: string, i: nat, end: nat)
    requires ParamAt(path, i) && i + 1 < end <= |path|
    requires (forall k :: i + 1 <= k < end ==> IsIdentContinue(path[k]))
             && (end < |path| ==> !IsIdentContinue(path[end]))
    ensures ToBrace(path[i..]) == "{" + path[i + 1..end] + "}" + ToBrace(path[end..])
  {
    var name, rest := path[i + 1..end], path[end..];
    var unread := name + rest;
    assert forall k :: 0 <= k < |name| ==> unread[k] == path[i + 1 + k];
    assert |name| < |unread| ==> unread[|name|] == path[end];
    RunIs(unread, |name|);
    assert path[i..] == ":" + name + rest;
    ToBraceParam(path[i..], name, rest);
  }

  // ----- Reading it back ----------------------------------------------------

  /** The inverse: an opening brace was a colon, a closing one was nothing. */
  function FromBrace(s: string): string {
    if s == "" then ""
    else (if s[0] == '{' then ":" else if s[0] == '}' then "" else [s[0]]) + FromBrace(s[1..])
  }

  predicate BraceFree(s: string) {
    '{' !in s && '}' !in s
  }

  lemma {:induction false} FromBraceAppend(s: string, t: string)
    ensures FromBrace(s + t) == FromBrace(s) + FromBrace(t)
  {
    if s == "" {
      assert s + t == t;
    } else {
      assert (s + t)[1..] == s[1..] + t;
      FromBraceAppend(s[1..], t);
    }
  }

  lemma {:induction false} FromBraceKeeps(s: string)
    requires BraceFree(s)
    ensures FromBrace(s) == s
  {
    if s != "" {
      FromBraceKeeps(s[1..]);
      assert s == [s[0]] + s[1..];
    }
  }

  lemma {:induction false} FromBraceIsBraceFree(s: string)
    ensures BraceFree(FromBrace(s))
  {
    if s != "" {
      FromBraceIsBraceFree(s[1..]);
    }
  }

  lemma {:induction false} NameFacts(s: string)
    requires ParamAt(s, 0)
    ensures var name := NameAt(s, 0);
            && name != "" && IsIdentStart(name[0]) && |name| < |s| && BraceFree(name) && ':' !in name
            && (forall k :: 0 <= k < |name| ==> IsIdentContinue(name[k]))
            && s == ":" + name + s[1 + |name|..] && RunLength(name + s[1 + |name|..]) == |name|
            && ToBrace(s) == "{" + name + "}" + ToBrace(s[1 + |name|..])
  {
    var name := NameAt(s, 0);
    assert s[1..] == name + s[1 + |name|..];
    assert s[1..][0] == s[1];
  }

  lemma {:induction false} FromBraceParam(name: string, rest: string)
    requires BraceFree(name)
    ensures FromBrace("{" + name + "}" + rest) == ":" + name + FromBrace(rest)
  {
    var s := "{" + name + "}" + rest;
    assert s == "{" + (name + ("}" + rest)) && s[1..] == name + ("}" + rest);
    FromBraceAppend(name, "}" + rest);
    FromBraceKeeps(name);
    assert ("}" + rest)[1..] == rest;
  }

  lemma {:induction false} RoundTrip(s: string)
    requires BraceFree(s)
    ensures FromBrace(ToBrace(s)) == s
    decreases |s|
  {
    if s != "" {
      if ParamAt(s, 0) {
        NameFacts(s);
        var name := NameAt(s, 0);
        RoundTrip(s[1 + |name|..]);
        FromBraceParam(name, ToBrace(s[1 + |name|..]));
      } else {
        RoundTrip(s[1..]);
        assert ([s[0]] + ToBrace(s[1..]))[1..] == ToBrace(s[1..]);
        assert s == [s[0]] + s[1..];
      }
    }
  }

  /** Main result: the inverse recovers a path exactly when the path has no braces of its own. */
  lemma {:induction false} RecoveredExactly(s: string)
    ensures FromBrace(ToBrace(s)) == s <==> BraceFree(s)
  {
    FromBraceIsBraceFree(ToBrace(s));
    if BraceFree(s) {
      RoundTrip(s);
    }
  }

  /** So different brace-free paths stay different. */
  lemma {:induction false} InjectiveOnBraceFree(s: string, t: string)
    requires BraceFree(s) && BraceFree(t) && ToBrace(s) == ToBrace(t)
    ensures s == t
  {
    RoundTrip(s);
    RoundTrip(t);
  }

  /** With braces they need not. */
  lemma BracesCollide()
    ensures ToBrace(":id") == ToBrace("{id}") == "{id}"
  {
    RunIs("id" + "", 2);
    assert ":id" == ":" + "id" + "";
    ToBraceParam(":id", "id", "");
    assert "{" + "id" + "}" + ToBrace("") == "{id}";
    NothingToDo("{id}");
  }

  // ----- Converting twice ---------------------------------------------------

  predicate NoParam(s: string) {
    forall i | 0 <= i < |s| :: !ParamAt(s, i)
  }

  lemma {:induction false} NothingToDo(s: string)
    requires NoParam(s)
    ensures ToBrace(s) == s
  {
    if s != "" {
      assert !ParamAt(s, 0);
      forall i | 0 <= i < |s[1..]|
        ensures !ParamAt(s[1..], i)
      {
        assert !ParamAt(s, i + 1);
      }
      NothingToDo(s[1..]);
      assert s == [s[0]] + s[1..];
    }
  }

  lemma NoParamAppend(s: string, t: string)
    requires NoParam(s) && NoParam(t)
    requires s != "" && s[|s| - 1] != ':'
    ensures NoParam(s + t)
  {
    forall i | 0 <= i < |s + t|
      ensures !ParamAt(s + t, i)
    {
      if i < |s| {
        assert !ParamAt(s, i);
      } else {
        assert !ParamAt(t, i - |s|);
      }
    }
  }

  lemma NoColonNoParam(s: string)
    requires ':' !in s
    ensures NoParam(s)
  {
  }

  lemma ColonBefore(t: string)
    requires NoParam(t) && (t != "" ==> !IsIdentStart(t[0]))
    ensures NoParam(":" + t)
  {
    forall i | 0 <= i < |":" + t|
      ensures !ParamAt(":" + t, i)
    {
      if i > 0 {
        assert !ParamAt(t, i - 1);
      }
    }
  }

  /** The first character is kept, or opens a parameter. */
  lemma {:induction false} FirstChar(s: string)
    requires s != ""
    ensures ToBrace(s) != "" && (ToBrace(s)[0] == s[0] || ToBrace(s)[0] == '{')
  {
  }

  lemma {:induction false} OutputHasNoParam(s: string)
    ensures NoParam(ToBrace(s))
    decreases |s|
  {
    if s != "" {
      if ParamAt(s, 0) {
        NameFacts(s);
        var name := NameAt(s, 0);
        OutputHasNoParam(s[1 + |name|..]);
        NoColonNoParam("{" + name + "}");
        NoParamAppend("{" + name + "}", ToBrace(s[1 + |name|..]));
      } else {
        OutputHasNoParam(s[1..]);
        if s[0] != ':' {
          NoColonNoParam([s[0]]);
          NoParamAppend([s[0]], ToBrace(s[1..]));
        } else {
          if |s| > 1 {
            FirstChar(s[1..]);
          }
          ColonBefore(ToBrace(s[1..]));
        }
      }
    }
  }

  /** Main result: converted paths hold no parameter any more, they are exactly the paths that
      conversion leaves alone, and so converting twice is converting once. */
  lemma {:induction false} FixedExactly(s: string)
    ensures ToBrace(s) == s <==> NoParam(s)
    ensures ToBrace(ToBrace(s)) == ToBrace(s)
  {
    OutputHasNoParam(s);
    NothingToDo(ToBrace(s));
    if NoParam(s) {
      NothingToDo(s);
    }
  }

  // ----- Every parameter, in order, whole -----------------------------------

  lemma {:induction false} RunBeforeColon(s: string, t: string)
    requires t != "" && t[0] == ':'
    ensures RunLength(s + t) == RunLength(s)
  {
    RunIs(s + t, RunLength(s));
  }

  lemma {:induction false} ParamBeforeColon(s: string, name: string, rest: string, t: string)
    requires t != "" && t[0] == ':' && name != "" && IsIdentStart(name[0])
    requires s == ":" + name + rest && RunLength(name + rest) == |name|
    ensures ToBrace(s + t) == "{" + name + "}" + ToBrace(rest + t)
  {
    assert s + t == ":" + name + (rest + t);
    assert name + rest + t == name + (rest + t);
    RunBeforeColon(name + rest, t);
    ToBraceParam(s + t, name, rest + t);
  }

  /** What stands before a colon is converted on its own. */
  lemma {:induction false} SplitsAtColon(s: string, t: string)
    requires t != "" && t[0] == ':'
    ensures ToBrace(s + t) == ToBrace(s) + ToBrace(t)
    decreases |s|
  {
    if s == "" {
      assert s + t == t;
    } else if ParamAt(s, 0) {
      NameFacts(s);
      var name := NameAt(s, 0);
      var rest := s[1 + |name|..];
      ParamBeforeColon(s, name, rest, t);
      SplitsAtColon(rest, t);
      Prefixes("{" + name + "}", ToBrace(rest), ToBrace(t));
    } else {
      assert s + t == [s[0]] + (s[1..] + t);
      assert !ParamAt(s + t, 0);
      ToBraceChar(s[0], s[1..] + t);
      SplitsAtColon(s[1..], t);
      Prefixes([s[0]], ToBrace(s[1..]), ToBrace(t));
    }
  }

  /** Main result: wherever a colon has an identifier behind it, the whole identifier is put in
      braces in place, and the text on either side is converted independently. */
  lemma {:induction false} EveryParamConverted(s: string, i: nat)
    requires ParamAt(s, i)
    ensures var name := NameAt(s, i);
            var after := i + 1 + |name|;
            && name != "" && (after < |s| ==> !IsIdentContinue(s[after]))
            && ToBrace(s) == ToBrace(s[..i]) + "{" + name + "}" + ToBrace(s[after..])
  {
    var name := NameAt(s, i);
    var end := i + 1 + |name|;
    NameEnds(s, i, end);
    SplitAt(s, i);
    ParamRead(s, i, end);
    Joined(ToBrace(s[..i]), name, ToBrace(s[end..]));
  }

  lemma {:induction false} SplitAt(s: string, i: nat)
    requires ParamAt(s, i)
    ensures ToBrace(s) == ToBrace(s[..i]) + ToBrace(s[i..])
  {
    assert s == s[..i] + s[i..];
    SplitsAtColon(s[..i], s[i..]);
  }

  lemma NameEnds(s: string, i: nat, end: nat)
    requires ParamAt(s, i) && end == i + 1 + |NameAt(s, i)|
    ensures i + 1 < end <= |s| && s[i + 1..end] == NameAt(s, i)
    ensures (forall k :: i + 1 <= k < end ==> IsIdentContinue(s[k])) && (end < |s| ==> !IsIdentContinue(s[end]))
  {
    var behind := s[i + 1..];
    assert behind[0] == s[i + 1];
    assert forall k :: i + 1 <= k < end ==> s[k] == behind[k - i - 1];
    assert end < |s| ==> s[end] == behind[end - i - 1];
  }

  lemma Joined(before: string, name: string, behind: string)
    ensures before + ("{" + name + "}" + behind) == before + "{" + name + "}" + behind
  {
  }

  /** Positions where a parameter starts. */
  function ParamCount(s: string): nat {
    if s == "" then 0 else ParamCount(s[1..]) + if ParamAt(s, 0) then 1 else 0
  }

  lemma {:induction false} NameHidesNothing(name: string, rest: string)
    requires ':' !in name
    ensures ParamCount(name + rest) == ParamCount(rest)
  {
    if name == "" {
      assert name + rest == rest;
    } else {
      assert (name + rest)[1..] == name[1..] + rest;
      NameHidesNothing(name[1..], rest);
    }
  }

  /** Main result: each parameter makes the path one character longer. */
  lemma {:induction false} OneLongerPerParam(s: string)
    ensures |ToBrace(s)| == |s| + ParamCount(s)
    decreases |s|
  {
    if s != "" {
      if ParamAt(s, 0) {
        NameFacts(s);
        var name := NameAt(s, 0);
        var rest := s[1 + |name|..];
        assert s[1..] == name + rest;
        NameHidesNothing(name, rest);
        OneLongerPerParam(rest);
      } else {
        OneLongerPerParam(s[1..]);
      }
    }
  }

  /** A colon inside a segment is a parameter like any other. */
  lemma {:induction false} ColonInsideSegment(text: string, name: string)
    requires ':' !in text && IsIdentifier(name)
    ensures ToBrace(text + (":" + name)) == text + ("{" + name + "}")
  {
    SplitsAtColon(text, ":" + name);
    NoColonNoParam(text);
    NothingToDo(text);
    RunIs(name, |name|);
    assert name + "" == name && ":" + name + "" == ":" + name;
    ToBraceParam(":" + name, name, "");
    assert "{" + name + "}" + ToBrace("") == "{" + name + "}";
  }

  /** So the path `/literal:colon` is converted. */
  lemma LiteralColonIsConverted()
    ensures ToBrace("/literal:colon") == "/literal{colon}"
  {
    var text, name := "/literal", "colon";
    assert text + (":" + name) == "/literal:colon" && text + ("{" + name + "}") == "/literal{colon}";
    ColonInsideSegment(text, name);
  }
}
