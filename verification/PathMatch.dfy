/**
 Glob patterns with `**` (internal/pathmatch/pathmatch.go). The match of one segment against
 one pattern segment, `filepath.Match`, is a parameter `glob`: true when it matches without error.
 */
module PathMatch {
  import opened Text

  type Glob = (string, string) -> bool

  const ANY: string := "**"

  /** `matchSegments`: segment by segment, backtracking on `**`. */
  predicate MatchSegments(glob: Glob, pattern: seq<string>, path: seq<string>)
    decreases |pattern|
  {
    if pattern == [] then path == []
    else if pattern[0] == ANY then
      |pattern| == 1 || exists i :: 0 <= i <= |path| && MatchSegments(glob, pattern[1..], path[i..])
    else path != [] && glob(pattern[0], path[0]) && MatchSegments(glob, pattern[1..], path[1..])
  }

  /** Windows-style separators in a pattern are read as `/`; leading and trailing ones are dropped. */
  function PatternSegments(pattern: string): seq<string> {
    Split(Trim(ReplaceAll(pattern, '\\', '/'), '/'), '/')
  }

  function PathSegments(path: string): seq<string> {
    Split(Trim(path, '/'), '/')
  }

  predicate Match(glob: Glob, pattern: string, path: string) {
    MatchSegments(glob, PatternSegments(pattern), PathSegments(path))
  }

  /** `MatchAny`: a loop that stops at the first match. */
  predicate MatchAny(glob: Glob, patterns: seq<string>, path: string) {
    exists i :: 0 <= i < |patterns| && Match(glob, patterns[i], path)
  }

  /** `WhichMatches`: the first pattern that matches, or the empty text. */
  function WhichMatches(glob: Glob, patterns: seq<string>, path: string): (rule: string)
    ensures !MatchAny(glob, patterns, path) ==> rule == ""
    ensures MatchAny(glob, patterns, path) ==> exists i :: FirstMatch(glob, patterns, path, i) && rule == patterns[i]
  {
    if patterns == [] then ""
    else if Match(glob, patterns[0], path) then
      assert FirstMatch(glob, patterns, path, 0);
      patterns[0]
    else
      var rest := patterns[1..];
      assert MatchAny(glob, patterns, path) ==> MatchAny(glob, rest, path) by {
        if i :| 0 <= i < |patterns| && Match(glob, patterns[i], path) { assert rest[i - 1] == patterns[i]; }
      }
      assert forall i :: FirstMatch(glob, rest, path, i) ==> FirstMatch(glob, patterns, path, i + 1) by {
        forall i | FirstMatch(glob, rest, path, i) ensures FirstMatch(glob, patterns, path, i + 1) {
          assert forall j :: 1 <= j < i + 1 ==> patterns[j] == rest[j - 1];
        }
      }
      WhichMatches(glob, rest, path)
  }

  predicate FirstMatch(glob: Glob, patterns: seq<string>, path: string, i: int) {
    && 0 <= i < |patterns| && Match(glob, patterns[i], path)
    && forall j :: 0 <= j < i ==> !Match(glob, patterns[j], path)
  }

  // ---- what a pattern means ----

  /**
   The meaning of a pattern: the path is cut into one run per pattern segment; `**` takes a
   run of any length, every other segment takes exactly one path segment and matches it.
   */
  predicate Cut(glob: Glob, pattern: seq<string>, runs: seq<seq<string>>) {
    && |runs| == |pattern|
    && forall i :: 0 <= i < |pattern| ==> pattern[i] == ANY || (|runs[i]| == 1 && glob(pattern[i], runs[i][0]))
  }

  lemma {:induction false} CutOfMatch(glob: Glob, pattern: seq<string>, path: seq<string>) returns (runs: seq<seq<string>>)
    requires MatchSegments(glob, pattern, path)
    ensures Cut(glob, pattern, runs) && Concat(runs) == path
    decreases |pattern|
  {
    if pattern == [] {
      runs := [];
    } else if pattern[0] == ANY {
      if |pattern| == 1 {
        runs := [path];
        assert Concat(runs[1..]) == [];
      } else {
        var i :| 0 <= i <= |path| && MatchSegments(glob, pattern[1..], path[i..]);
        var rest := CutOfMatch(glob, pattern[1..], path[i..]);
        runs := [path[..i]] + rest;
        assert runs[1..] == rest;
      }
    } else {
      var rest := CutOfMatch(glob, pattern[1..], path[1..]);
      runs := [path[..1]] + rest;
      assert runs[1..] == rest;
    }
  }

  lemma {:induction false} MatchOfCut(glob: Glob, pattern: seq<string>, runs: seq<seq<string>>)
    requires Cut(glob, pattern, runs)
    ensures MatchSegments(glob, pattern, Concat(runs))
    decreases |pattern|
  {
    if pattern != [] {
      MatchOfCut(glob, pattern[1..], runs[1..]);
      var path := Concat(runs);
      assert path[|runs[0]|..] == Concat(runs[1..]);
      if pattern[0] != ANY { assert path[0] == runs[0][0]; }
    }
  }

  /** The backtracking search agrees with the meaning, for every pattern and path. */
  lemma MatchMeaning(glob: Glob, pattern: seq<string>, path: seq<string>)
    ensures MatchSegments(glob, pattern, path) <==> exists runs :: Cut(glob, pattern, runs) && Concat(runs) == path
  {
    if MatchSegments(glob, pattern, path) {
      var runs := CutOfMatch(glob, pattern, path);
    }
    if exists runs :: Cut(glob, pattern, runs) && Concat(runs) == path {
      var runs :| Cut(glob, pattern, runs) && Concat(runs) == path;
      MatchOfCut(glob, pattern, runs);
    }
  }

  // `P/**` matches exactly the paths that have a prefix matched by `P`. Hence it matches what
  // `P` matches, and once it matches a path it matches everything below that path.
  lemma {:induction false} TrailingAny(glob: Glob, pattern: seq<string>, path: seq<string>)
    ensures MatchSegments(glob, pattern + [ANY], path)
       <==> exists k :: 0 <= k <= |path| && MatchSegments(glob, pattern, path[..k])
    decreases |pattern|
  {
    var full := pattern + [ANY];
    if pattern == [] {
      assert path[..0] == [];
    } else {
      assert full[1..] == pattern[1..] + [ANY];
      if MatchSegments(glob, full, path) {
        TrailingAnyForward(glob, pattern, path);
      }
      if exists k :: 0 <= k <= |path| && MatchSegments(glob, pattern, path[..k]) {
        var k :| 0 <= k <= |path| && MatchSegments(glob, pattern, path[..k]);
        TrailingAnyBackward(glob, pattern, path, k);
      }
    }
  }

  lemma {:induction false} TrailingAnyForward(glob: Glob, pattern: seq<string>, path: seq<string>)
    requires pattern != [] && MatchSegments(glob, pattern + [ANY], path)
    ensures exists k :: 0 <= k <= |path| && MatchSegments(glob, pattern, path[..k])
    decreases |pattern|, 0
  {
    var full := pattern + [ANY];
    assert full[1..] == pattern[1..] + [ANY];
    var i := if pattern[0] == ANY then
      (var i :| 0 <= i <= |path| && MatchSegments(glob, full[1..], path[i..]); i) else 1;
    TrailingAny(glob, pattern[1..], path[i..]);
    var k :| 0 <= k <= |path[i..]| && MatchSegments(glob, pattern[1..], path[i..][..k]);
    assert path[..i + k][i..] == path[i..][..k];
    assert MatchSegments(glob, pattern, path[..i + k]);
  }

  lemma {:induction false} TrailingAnyBackward(glob: Glob, pattern: seq<string>, path: seq<string>, k: nat)
    requires pattern != [] && k <= |path| && MatchSegments(glob, pattern, path[..k])
    ensures MatchSegments(glob, pattern + [ANY], path)
    decreases |pattern|, 0
  {
    var full := pattern + [ANY];
    assert full[1..] == pattern[1..] + [ANY];
    if pattern == [ANY] {
      TrailingAny(glob, [], path);
      assert path[..0] == [] && pattern[1..] == [];
      assert path[0..] == path && MatchSegments(glob, full[1..], path[0..]);
    } else {
      var i := if pattern[0] == ANY then
        (var i :| 0 <= i <= k && MatchSegments(glob, pattern[1..], path[..k][i..]); i) else 1;
      assert path[..k][i..] == path[i..][..k - i];
      TrailingAny(glob, pattern[1..], path[i..]);
    }
  }

  /** A pattern ending in `**` that matches a path matches every extension of it. */
  lemma AnyCoversBelow(glob: Glob, pattern: seq<string>, path: seq<string>, below: seq<string>)
    requires MatchSegments(glob, pattern + [ANY], path)
    ensures MatchSegments(glob, pattern + [ANY], path + below)
  {
    TrailingAny(glob, pattern, path);
    TrailingAny(glob, pattern, path + below);
    var k :| 0 <= k <= |path| && MatchSegments(glob, pattern, path[..k]);
    assert (path + below)[..k] == path[..k];
  }

  /** Segments that match themselves as patterns make a pattern that matches its own path. */
  lemma {:induction false} PlainMatchesItself(glob: Glob, path: seq<string>)
    requires forall i :: 0 <= i < |path| ==> glob(path[i], path[i])
    ensures MatchSegments(glob, path, path)
    decreases |path|
  {
    if path != [] {
      PlainMatchesItself(glob, path[1..]);
      if path[0] == ANY && |path| > 1 { assert MatchSegments(glob, path[1..], path[1..]); }
    }
  }

  /** The pattern "" as `filepath.Match` treats it: it matches the empty name only. */
  ghost predicate EmptyIsPlain(glob: Glob) {
    forall s :: glob("", s) ==> s == ""
  }

  lemma {:induction false} TrimmedLeft(s: string, c: char)
    requires TrimLeft(s, c) == ""
    ensures forall i :: 0 <= i < |s| ==> s[i] == c
  {
    if s != "" {
      TrimmedLeft(s[1..], c);
      assert forall i :: 1 <= i < |s| ==> s[i] == s[1..][i - 1];
    }
  }

  lemma {:induction false} TrimmedRight(s: string, c: char)
    requires TrimRight(s, c) == ""
    ensures forall i :: 0 <= i < |s| ==> s[i] == c
  {
    if s != "" { TrimmedRight(s[..|s| - 1], c); }
  }

  lemma {:induction false} TrimLeftStart(s: string, c: char)
    ensures TrimLeft(s, c) != "" ==> TrimLeft(s, c)[0] != c
  {
    if s != "" && s[0] == c { TrimLeftStart(s[1..], c); }
  }

  /** The empty pattern matches no path that has a name in it. */
  lemma EmptyPatternMatchesRootOnly(glob: Glob, path: string)
    requires EmptyIsPlain(glob) && Match(glob, "", path)
    ensures forall i :: 0 <= i < |path| ==> path[i] == '/'
  {
    var segments, trimmed := PathSegments(path), Trim(path, '/');
    assert ReplaceAll("", '\\', '/') == "" && PatternSegments("") == [""];
    assert [""][1..] == [];
    assert MatchSegments(glob, [""], segments);
    assert segments == [""];
    JoinSplit(trimmed, '/');
    assert trimmed == "";
    TrimLeftStart(path, '/');
    TrimmedRight(TrimLeft(path, '/'), '/');
    TrimmedLeft(path, '/');
  }
}
