/** Line-level text handling: trimming, words, upper case. ASCII. */
module Strings {
  import opened Prelude

  predicate IsSpace(c: char) {
    c == ' ' || c == '\t' || c == '\n' || c == '\r'
  }

  predicate NoSpace(s: string) {
    forall c :: c in s ==> !IsSpace(c)
  }

  predicate IsWord(s: string) {
    s != "" && NoSpace(s)
  }

  function DropStart(s: string, drop: char -> bool): (r: string)
    ensures |r| <= |s|
  {
    if s != "" && drop(s[0]) then DropStart(s[1..], drop) else s
  }

  function DropEnd(s: string, drop: char -> bool): string {
    if s != "" && drop(s[|s| - 1]) then DropEnd(s[..|s| - 1], drop) else s
  }

  function Is(c: char): char -> bool {
    (d: char) => d == c
  }

  function Space(): char -> bool {
    (c: char) => IsSpace(c)
  }

  function TrimStart(s: string): string {
    DropStart(s, Space())
  }

  function Trim(s: string): string {
    DropEnd(TrimStart(s), Space())
  }

  /** Strips one kind of quote from both ends. */
  function Strip(s: string, c: char): string {
    DropEnd(DropStart(s, Is(c)), Is(c))
  }

  function Unquote(s: string): string {
    Strip(Strip(s, '"'), '`')
  }

  /** Length of the run of non-space characters at the front. */
  function WordLength(s: string): (n: nat)
    ensures n <= |s|
  {
    if s != "" && !IsSpace(s[0]) then WordLength(s[1..]) + 1 else 0
  }

  function Words(s: string): seq<string>
    decreases |s|
  {
    if s == "" then []
    else if IsSpace(s[0]) then Words(s[1..])
    else [s[..WordLength(s)]] + Words(s[WordLength(s)..])
  }

  function Upper(s: string): (u: string)
    ensures |u| == |s|
  {
    if s == "" then "" else [ToUpper(s[0])] + Upper(s[1..])
  }

  function ToUpper(c: char): char {
    if 'a' <= c <= 'z' then c - 'a' + 'A' else c
  }

  predicate StartsWith(s: string, prefix: string) {
    |prefix| <= |s| && s[..|prefix|] == prefix
  }

  lemma {:induction false} UpperFacts(s: string)
    ensures |Upper(s)| == |s| && forall i :: 0 <= i < |s| ==> Upper(s)[i] == ToUpper(s[i])
  {
    if s != "" {
      UpperFacts(s[1..]);
    }
  }

  lemma {:induction false} UpperAppend(s: string, t: string)
    ensures Upper(s + t) == Upper(s) + Upper(t)
  {
    if s == "" {
      assert s + t == t;
    } else {
      assert (s + t)[1..] == s[1..] + t;
      UpperAppend(s[1..], t);
    }
  }

  lemma {:induction false} WordLengthIs(w: string, rest: string)
    requires NoSpace(w) && (rest == "" || IsSpace(rest[0]))
    ensures WordLength(w + rest) == |w|
  {
    if w == "" {
      assert w + rest == rest;
    } else {
      assert (w + rest)[1..] == w[1..] + rest;
      WordLengthIs(w[1..], rest);
    }
  }

  lemma {:induction false} WordsCons(w: string, rest: string)
    requires IsWord(w) && (rest == "" || IsSpace(rest[0]))
    ensures Words(w + rest) == [w] + Words(rest)
  {
    WordLengthIs(w, rest);
    assert (w + rest)[..|w|] == w && (w + rest)[|w|..] == rest;
    assert (w + rest)[0] == w[0];
  }

  lemma {:induction false} WordsSpace(s: string)
    ensures Words(" " + s) == Words(s)
  {
    assert (" " + s)[1..] == s;
  }

  /** Dropping from the end stops at a character that is to be kept. */
  lemma {:induction false} DropEndStops(kept: string, rest: string, drop: char -> bool) returns (k: nat)
    requires kept != "" && !drop(kept[|kept| - 1])
    ensures k <= |rest| && DropEnd(kept + rest, drop) == kept + rest[..k]
    ensures k > 0 ==> !drop(rest[k - 1])
  {
    k := |rest|;
    if rest != "" && drop(rest[|rest| - 1]) {
      var n := |rest| - 1;
      assert (kept + rest)[..|kept + rest| - 1] == kept + rest[..n];
      k := DropEndStops(kept, rest[..n], drop);
      assert rest[..n][..k] == rest[..k];
    } else {
      assert rest[..k] == rest;
    }
  }

  lemma {:induction false} DropNothing(s: string, drop: char -> bool)
    requires s != "" ==> !drop(s[0]) && !drop(s[|s| - 1])
    ensures DropStart(s, drop) == s && DropEnd(s, drop) == s
  {
  }

  predicate IsIdentStart(c: char) {
    'a' <= c <= 'z' || 'A' <= c <= 'Z' || c == '_'
  }

  predicate IsIdentContinue(c: char) {
    IsIdentStart(c) || '0' <= c <= '9'
  }

  predicate IsIdentifier(s: string) {
    s != "" && IsIdentStart(s[0]) && forall c :: c in s ==> IsIdentContinue(c)
  }

  lemma IdentifierIsWord(s: string)
    requires IsIdentifier(s)
    ensures IsWord(s) && Unquote(s) == s && Unquote("\"" + s + "\"") == s
  {
    assert s[0] in s && s[|s| - 1] in s;
    DropNothing(s, Is('"'));
    DropNothing(s, Is('`'));
    var q := "\"" + s + "\"";
    assert q[1..] == s + "\"" && (s + "\"")[..|s|] == s;
    assert DropStart(q, Is('"')) == s + "\"";
    assert DropEnd(s + "\"", Is('"')) == s;
  }

  /** Words with one space between them. */
  function Join(words: seq<string>): string {
    if words == [] then ""
    else if |words| == 1 then words[0]
    else words[0] + (" " + Join(words[1..]))
  }

  lemma {:induction false} WordsOfJoin(words: seq<string>)
    requires forall w :: w in words ==> IsWord(w)
    ensures Words(Join(words)) == words
  {
    if words != [] {
      assert words[0] in words;
      WordsOfJoin(words[1..]);
      if |words| == 1 {
        WordsCons(words[0], "");
        assert words[0] + "" == words[0];
      } else {
        WordsCons(words[0], " " + Join(words[1..]));
        WordsSpace(Join(words[1..]));
      }
      assert words == [words[0]] + words[1..];
    }
  }

  predicate NoLower(s: string) {
    forall i :: 0 <= i < |s| ==> !('a' <= s[i] <= 'z')
  }

  lemma {:induction false} UpperKeeps(s: string)
    requires NoLower(s)
    ensures Upper(s) == s
  {
    if s != "" {
      UpperKeeps(s[1..]);
      assert s == [s[0]] + s[1..];
    }
  }

  // ----- Order, character by character --------------------------------------

  predicate TextLess(s: string, t: string) {
    t != "" && (s == "" || s[0] < t[0] || (s[0] == t[0] && TextLess(s[1..], t[1..])))
  }

  predicate AtMost(s: string, t: string) {
    s == t || TextLess(s, t)
  }

  lemma {:induction false} LessTransitive(s: string, t: string, u: string)
    requires TextLess(s, t) && TextLess(t, u)
    ensures TextLess(s, u)
  {
    if s != "" && s[0] == t[0] && t[0] == u[0] {
      LessTransitive(s[1..], t[1..], u[1..]);
    }
  }

  lemma {:induction false} LessTotal(s: string, t: string)
    ensures s == t || TextLess(s, t) || TextLess(t, s)
  {
    if s != "" && t != "" && s[0] == t[0] {
      LessTotal(s[1..], t[1..]);
      assert s == [s[0]] + s[1..] && t == [t[0]] + t[1..];
    }
  }

  lemma {:induction false} LessIrreflexive(s: string)
    ensures !TextLess(s, s)
  {
    if s != "" {
      LessIrreflexive(s[1..]);
    }
  }

  lemma {:induction false} LessAsymmetric(s: string, t: string)
    ensures !(TextLess(s, t) && TextLess(t, s))
  {
    if TextLess(s, t) && TextLess(t, s) {
      LessTransitive(s, t, s);
      LessIrreflexive(s);
    }
  }
}
