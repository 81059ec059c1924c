/** The paths under which SQLite knows databases kept in the cluster. */
module SqlitePath {
  import opened Wrappers

  datatype FileLoc = FileLoc(pool: string, radosns: string, name: string)

  datatype PathResult = NotFound | CantOpen | Ok(path: string)

  predicate Digit(c: char) {
    '0' <= c <= '9'
  }

  /** [[:alnum:]-_.] */
  predicate NameChar(c: char) {
    Digit(c) || 'a' <= c <= 'z' || 'A' <= c <= 'Z' || c == '-' || c == '_' || c == '.'
  }

  predicate AllNameChars(s: string) {
    forall i :: 0 <= i < |s| ==> NameChar(s[i])
  }

  predicate AllDigits(s: string) {
    forall i :: 0 <= i < |s| ==> Digit(s[i])
  }

  /** A pool given by number, as in the first pattern: \*[[:digit:]]+ */
  predicate PoolId(s: string) {
    |s| > 1 && s[0] == '*' && AllDigits(s[1..])
  }

  /** A pool given by name, as in the second pattern. */
  predicate PoolName(s: string) {
    |s| > 0 && AllNameChars(s)
  }

  predicate ValidLoc(loc: FileLoc) {
    (PoolId(loc.pool) || PoolName(loc.pool)) && AllNameChars(loc.radosns) && PoolName(loc.name)
  }

  /** What both patterns say but for the slashes in front. */
  function Format(loc: FileLoc): string {
    loc.pool + ":" + loc.radosns + "/" + loc.name
  }

  function Slashes(n: nat): string {
    seq(n, _ => '/')
  }

  /** One of the two patterns matches `path` with these groups. */
  ghost predicate Matches(path: string, loc: FileLoc) {
    ValidLoc(loc) && exists n: nat :: path == Slashes(n) + Format(loc)
  }

  function StripSlashes(s: string): (r: string)
    ensures r == [] || r[0] != '/'
  {
    if s != [] && s[0] == '/' then StripSlashes(s[1..]) else s
  }

  /** The first position of a character, or the length of the string. */
  function Find(s: string, c: char): (n: nat)
    ensures n <= |s| && (n < |s| ==> s[n] == c) && forall i :: 0 <= i < n ==> s[i] != c
  {
    if s == [] then 0 else if s[0] == c then 0 else 1 + Find(s[1..], c)
  }

  /** parsepath(): the groups of the pattern that matches, if one does. */
  function ParsePath(path: string): Option<FileLoc> {
    var s := StripSlashes(path);
    var colon := Find(s, ':');
    if colon == |s| then None
    else
      var rest := s[colon + 1..];
      var slash := Find(rest, '/');
      if slash == |rest| then None
      else
        var loc := FileLoc(s[..colon], rest[..slash], rest[slash + 1..]);
        if ValidLoc(loc) then Some(loc) else None
  }

  function FullPathname(path: string, opathlen: nat): PathResult {
    var loc := ParsePath(path);
    if loc.None? then NotFound
    else
      var p := Format(loc.value);
      if |p| >= opathlen then CantOpen else Ok(p)
  }

  lemma {:induction false} StripAll(n: nat, s: string)
    requires s == [] || s[0] != '/'
    ensures StripSlashes(Slashes(n) + s) == s
    decreases n
  {
    if n == 0 {
      assert Slashes(0) + s == s;
    } else {
      assert (Slashes(n) + s)[1..] == Slashes(n - 1) + s;
      StripAll(n - 1, s);
    }
  }

  lemma {:induction false} StripRestores(s: string) returns (n: nat)
    ensures s == Slashes(n) + StripSlashes(s)
    decreases |s|
  {
    if s != [] && s[0] == '/' {
      var m := StripRestores(s[1..]);
      n := m + 1;
      assert s == ['/'] + s[1..] && Slashes(n) == ['/'] + Slashes(m);
    } else {
      n := 0;
    }
  }

  lemma {:induction false} FindAt(a: string, c: char, b: string)
    requires forall i :: 0 <= i < |a| ==> a[i] != c
    ensures Find(a + [c] + b, c) == |a|
    decreases |a|
  {
    if a != [] {
      assert (a + [c] + b)[1..] == a[1..] + [c] + b;
      FindAt(a[1..], c, b);
    }
  }

  /** Neither kind of pool has a colon or starts with a slash. */
  lemma PoolChars(pool: string)
    requires PoolId(pool) || PoolName(pool)
    ensures pool[0] != '/' && forall i :: 0 <= i < |pool| ==> pool[i] != ':'
  {
    if PoolId(pool) {
      forall i | 0 <= i < |pool| ensures pool[i] != ':' {
        if i > 0 { assert pool[i] == pool[1..][i - 1]; }
      }
    }
  }

  /** The printed form of an acceptable location is parsed back, with any number of slashes in front. */
  lemma {:induction false} ParseFormat(loc: FileLoc, n: nat)
    requires ValidLoc(loc)
    ensures ParsePath(Slashes(n) + Format(loc)) == Some(loc)
  {
    PoolChars(loc.pool);
    var s := Format(loc);
    assert s[0] == loc.pool[0];
    StripAll(n, s);
    var rest := loc.radosns + "/" + loc.name;
    assert s == loc.pool + [':'] + rest;
    FindAt(loc.pool, ':', rest);
    assert s[|loc.pool| + 1..] == rest && s[..|loc.pool|] == loc.pool;
    FindAt(loc.radosns, '/', loc.name);
    assert rest == loc.radosns + ['/'] + loc.name;
    assert rest[..|loc.radosns|] == loc.radosns && rest[|loc.radosns| + 1..] == loc.name;
  }

  lemma {:induction false} ParseSplits(path: string)
    requires ParsePath(path).Some?
    ensures ValidLoc(ParsePath(path).value) && StripSlashes(path) == Format(ParsePath(path).value)
  {
    hide StripSlashes, Find, ValidLoc;
    var s := StripSlashes(path);
    var colon := Find(s, ':');
    var rest := s[colon + 1..];
    var slash := Find(rest, '/');
    assert s == s[..colon] + [':'] + rest;
    assert rest == rest[..slash] + ['/'] + rest[slash + 1..];
  }

  /** Parsing finds exactly what the patterns match; in particular a path has at most one reading. */
  lemma ParseIsMatch(path: string, loc: FileLoc)
    ensures ParsePath(path) == Some(loc) <==> Matches(path, loc)
  {
    if ParsePath(path) == Some(loc) {
      ParseSplits(path);
      var n := StripRestores(path);
    }
    if Matches(path, loc) {
      var n: nat :| path == Slashes(n) + Format(loc);
      ParseFormat(loc, n);
    }
  }

  /** No path is matched by both patterns. */
  lemma PatternsDisjoint(pool: string)
    ensures !(PoolId(pool) && PoolName(pool))
  {
  }

  /** Slashes in front make no difference. */
  lemma {:induction false} SlashesIgnored(path: string, n: nat)
    ensures StripSlashes(Slashes(n) + path) == StripSlashes(path)
  {
    var m := StripRestores(path);
    StripAll(m, StripSlashes(path));
    assert Slashes(n) + path == Slashes(n + m) + StripSlashes(path);
    StripAll(n + m, StripSlashes(path));
  }

  /** The canonical path stands for the same place, is its own canonical path, fits where it fitted
      before, and does not depend on the slashes in front. */
  lemma {:induction false} FullPathnameCanonical(path: string, opathlen: nat, n: nat)
    ensures var r := FullPathname(path, opathlen);
            r.Ok? ==> && ParsePath(r.path) == ParsePath(path) && ParsePath(path).Some?
                      && FullPathname(r.path, opathlen) == r && |r.path| < opathlen
    ensures FullPathname(Slashes(n) + path, opathlen) == FullPathname(path, opathlen)
  {
    hide StripSlashes, Find, ValidLoc;
    SlashesIgnored(path, n);
    assert ParsePath(Slashes(n) + path) == ParsePath(path);
    if ParsePath(path).Some? { CanonicalParses(path); }
  }

  /** A path is accepted exactly if one of the patterns matches it and its printed form leaves room for the zero
      behind it; it is unknown exactly if none matches. */
  lemma FullPathnameExact(path: string, opathlen: nat)
    ensures forall loc :: Matches(path, loc) ==>
              FullPathname(path, opathlen) == if |Format(loc)| < opathlen then Ok(Format(loc)) else CantOpen
    ensures FullPathname(path, opathlen).NotFound? <==> forall loc :: !Matches(path, loc)
    ensures FullPathname(path, opathlen).Ok? <==> exists loc :: Matches(path, loc) && |Format(loc)| < opathlen
  {
    hide ParsePath, Format, Matches;
    forall loc ensures ParsePath(path) == Some(loc) <==> Matches(path, loc) { ParseIsMatch(path, loc); }
  }

  lemma {:induction false} CanonicalParses(path: string)
    requires ParsePath(path).Some?
    ensures ParsePath(Format(ParsePath(path).value)) == ParsePath(path)
  {
    hide ParsePath, Format;
    ParseSplits(path);
    ParseFormat(ParsePath(path).value, 0);
    assert Slashes(0) + Format(ParsePath(path).value) == Format(ParsePath(path).value);
  }

  /** Two accepted paths have one canonical path exactly if they name the same place. */
  lemma CanonicalIffSame(p: string, q: string, opathlen: nat)
    requires FullPathname(p, opathlen).Ok? && FullPathname(q, opathlen).Ok?
    ensures FullPathname(p, opathlen) == FullPathname(q, opathlen) <==> ParsePath(p) == ParsePath(q)
  {
    FullPathnameCanonical(p, opathlen, 0);
    FullPathnameCanonical(q, opathlen, 0);
  }
}
