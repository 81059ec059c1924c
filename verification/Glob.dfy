/** The escaping of names that are handed to a shell-pattern matcher, and a matcher for patterns as
    section 2.13 of the POSIX Shell Command Language describes them. */
module Glob {
  import opened Wrappers

  // ---- the matcher ----

  predicate InRange(lo: char, c: char, hi: char) {
    lo <= c <= hi
  }

  /** The character classes of the POSIX locale. */
  predicate InClass(name: string, c: char) {
    if name == "digit" then InRange('0', c, '9')
    else if name == "lower" then InRange('a', c, 'z')
    else if name == "upper" then InRange('A', c, 'Z')
    else if name == "alpha" then InRange('a', c, 'z') || InRange('A', c, 'Z')
    else if name == "alnum" then InRange('a', c, 'z') || InRange('A', c, 'Z') || InRange('0', c, '9')
    else if name == "xdigit" then InRange('a', c, 'f') || InRange('A', c, 'F') || InRange('0', c, '9')
    else if name == "blank" then c == ' ' || c == '\t'
    else if name == "space" then c == ' ' || (9 <= c as int <= 13)
    else if name == "cntrl" then c as int < 32 || c as int == 127
    else if name == "print" then InRange(' ', c, '~')
    else if name == "graph" then InRange('!', c, '~')
    else name == "punct" && (InRange('!', c, '/') || InRange(':', c, '@') || InRange('[', c, '`') || InRange('{', c, '~'))
  }

  /** `[:`, `[.` and `[=` open an element of a bracket expression at position i. */
  predicate OpensElement(p: string, i: nat) {
    i + 1 < |p| && p[i] == '[' && (p[i + 1] == ':' || p[i + 1] == '.' || p[i + 1] == '=')
  }

  /** Where the element that opened with `kind` closes, searching from position i. */
  function ElementEnd(p: string, kind: char, i: nat): (r: Option<nat>)
    ensures r.Some? ==> i <= r.value && r.value + 1 < |p|
    decreases |p| - i
  {
    if i + 1 >= |p| then None
    else if p[i] == kind && p[i + 1] == ']' then Some(i)
    else ElementEnd(p, kind, i + 1)
  }

  /** The position of the bracket that closes an expression, searching from position i. */
  function CloseAt(p: string, i: nat): (r: Option<nat>)
    ensures r.Some? ==> i <= r.value < |p|
    decreases |p| - i
  {
    if i >= |p| then None
    else if p[i] == ']' then Some(i)
    else if p[i] == '\\' then CloseAt(p, i + 2)
    else if OpensElement(p, i) then
      var e := ElementEnd(p, p[i + 1], i + 2);
      if e.Some? then CloseAt(p, e.value + 2) else CloseAt(p, i + 1)
    else CloseAt(p, i + 1)
  }

  predicate Negates(p: string) {
    |p| > 0 && (p[0] == '!' || p[0] == '^')
  }

  /** Where the bracket expression that starts the pattern ends; a bracket that is first in it does
      not end it. */
  function BracketEnd(p: string): (r: Option<nat>)
    requires |p| > 0
    ensures r.Some? ==> 0 < r.value < |p|
  {
    var i := if Negates(p[1..]) then 2 else 1;
    if i < |p| && p[i] == ']' then CloseAt(p, i + 1) else CloseAt(p, i)
  }

  /** Whether `c` is one of the elements listed in a bracket expression. */
  predicate ListHas(s: string, c: char)
    decreases |s|
  {
    if s == [] then false
    else if s[0] == '\\' && |s| > 1 then s[1] == c || ListHas(s[2..], c)
    else if OpensElement(s, 0) && ElementEnd(s, s[1], 2).Some? then
      var e := ElementEnd(s, s[1], 2).value;
      (if s[1] == ':' then InClass(s[2..e], c) else s[2..e] == [c]) || ListHas(s[e + 2..], c)
    else if |s| >= 3 && s[1] == '-' then InRange(s[0], c, s[2]) || ListHas(s[3..], c)
    else s[0] == c || ListHas(s[1..], c)
  }

  predicate BracketHas(s: string, c: char) {
    if Negates(s) then !ListHas(s[1..], c) else ListHas(s, c)
  }

  predicate Match(p: string, t: string)
    decreases |p| + |t|
  {
    if p == [] then t == []
    else if p[0] == '*' then Match(p[1..], t) || (t != [] && Match(p, t[1..]))
    else if p[0] == '?' then t != [] && Match(p[1..], t[1..])
    else if p[0] == '\\' then |p| > 1 && t != [] && t[0] == p[1] && Match(p[2..], t[1..])
    else if p[0] == '[' && BracketEnd(p).Some? then
      var e := BracketEnd(p).value;
      t != [] && BracketHas(p[1..e], t[0]) && Match(p[e + 1..], t[1..])
    else t != [] && t[0] == p[0] && Match(p[1..], t[1..])
  }

  // ---- the escaping ----

  predicate Meta(c: char) {
    c == '*' || c == '?' || c == '['
  }

  /** Wraps any of the three special characters in brackets. */
  function EscapeGlob(s: string): string {
    if s == [] then []
    else (if Meta(s[0]) then ['[', s[0], ']'] else [s[0]]) + EscapeGlob(s[1..])
  }

  /** A bracketed special character matches just itself. */
  lemma BracketedMatches(c: char, rest: string, t: string)
    requires Meta(c)
    ensures Match(['[', c, ']'] + rest, t) <==> t != [] && t[0] == c && Match(rest, t[1..])
  {
    var p := ['[', c, ']'] + rest;
    assert p[1..][0] == c;
    assert !OpensElement(p, 1);
    assert CloseAt(p, 2) == Some(2) && CloseAt(p, 1) == Some(2);
    assert BracketEnd(p) == Some(2);
    assert p[1..2] == [c] && p[3..] == rest;
    if t != [] {
      assert [c][1..] == [];
      assert ListHas([c], t[0]) <==> c == t[0];
    }
  }

  lemma PlainMatches(c: char, rest: string, t: string)
    requires !Meta(c) && c != '\\'
    ensures Match([c] + rest, t) <==> t != [] && t[0] == c && Match(rest, t[1..])
  {
    assert ([c] + rest)[1..] == rest;
  }

  lemma {:induction false} EscapedMatchesItself(s: string, t: string)
    requires '\\' !in s
    ensures Match(EscapeGlob(s), t) <==> t == s
    decreases |s|
  {
    if s != [] {
      var c, rest := s[0], EscapeGlob(s[1..]);
      if Meta(c) { BracketedMatches(c, rest, t); } else { PlainMatches(c, rest, t); }
      if t != [] && t[0] == c {
        EscapedMatchesItself(s[1..], t[1..]);
        assert s == [c] + s[1..] && t == [c] + t[1..];
      }
    }
  }

  function Backslashes(n: nat): string {
    seq(n, _ => '\\')
  }

  /** A backslash in the name quotes what follows it, so the name itself never matches. */
  lemma {:induction false} BackslashBreaks(s: string, n: nat)
    requires n > 0 || '\\' in s
    ensures !Match(EscapeGlob(s), Backslashes(n) + s)
    decreases |s|
  {
    var t := Backslashes(n) + s;
    if s == [] {
      assert t[0] == '\\';
    } else if s[0] != '\\' {
      var c, rest := s[0], EscapeGlob(s[1..]);
      if Meta(c) { BracketedMatches(c, rest, t); } else { PlainMatches(c, rest, t); }
      if n == 0 {
        assert t == s && t[1..] == Backslashes(0) + s[1..];
        BackslashBreaks(s[1..], 0);
      } else {
        assert t[0] == '\\';
      }
    } else {
      assert t[0] == '\\';
      BackslashQuotes(s, t, n);
    }
  }

  lemma QuotedMatches(c: char, rest: string, t: string)
    ensures Match(['\\', c] + rest, t) <==> t != [] && t[0] == c && Match(rest, t[1..])
    ensures !Match(['\\'], t)
  {
    assert (['\\', c] + rest)[2..] == rest;
  }

  lemma {:induction false} BackslashQuotes(s: string, t: string, n: nat)
    requires |s| > 0 && s[0] == '\\' && t == Backslashes(n) + s && t[0] == '\\'
    ensures !Match(EscapeGlob(s), t)
    decreases |s|, 0
  {
    hide Match;
    var q := EscapeGlob(s[1..]);
    assert EscapeGlob(s) == ['\\'] + q;
    if |s| == 1 {
      assert s[1..] == [] && EscapeGlob(s) == ['\\'];
      QuotedMatches('\\', [], t);
    } else {
      QuotedMatches(q[0], q[1..], t);
      assert ['\\'] + q == ['\\', q[0]] + q[1..];
      if s[1] == '\\' {
        assert s[1..][1..] == s[2..];
        assert q[1..] == EscapeGlob(s[2..]);
        assert t[1..] == Backslashes(n + 1) + s[2..];
        BackslashBreaks(s[2..], n + 1);
      }
    }
  }

  ghost predicate Exact(s: string) {
    forall t :: Match(EscapeGlob(s), t) <==> t == s
  }

  /** The escaped name matches that name and no other if and only if it has no backslash. */
  lemma EscapeExact(s: string)
    ensures Exact(s) <==> '\\' !in s
  {
    if '\\' !in s {
      forall t ensures Match(EscapeGlob(s), t) <==> t == s { EscapedMatchesItself(s, t); }
    } else {
      BackslashBreaks(s, 0);
      assert Backslashes(0) + s == s;
    }
  }
}
