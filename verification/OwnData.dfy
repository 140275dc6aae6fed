/**
 The exclusion of the program's own directories (`excludeOwnData` in internal/config/load.go): the
 glob is derived from the configured text, and the walker meets the directory under the absolute,
 clean name that `filepath.Abs` gives it.
 */
module OwnData {
  import opened Text
  import opened PathMatch
  import opened Paths
  import opened Walk

  /** The glob `excludeOwnData` writes for a directory. */
  function OwnGlob(dir: string): string {
    TrimOneSuffix(dir, '/') + "/**"
  }

  function AddOwn(glob: Glob, exclude: seq<string>, dir: string): seq<string> {
    if dir == "" || MatchAny(glob, exclude, dir) then exclude else exclude + [OwnGlob(dir)]
  }

  function AddAll(glob: Glob, exclude: seq<string>, dirs: seq<string>): seq<string>
    decreases |dirs|
  {
    if dirs == [] then exclude else AddAll(glob, AddOwn(glob, exclude, dirs[0]), dirs[1..])
  }

  /** `excludeOwnData`. */
  method ExcludeOwnData(glob: Glob, exclude: seq<string>, dirs: seq<string>) returns (list: seq<string>)
    ensures list == AddAll(glob, exclude, dirs)
  {
    list := exclude;
    var i := 0;
    while i < |dirs|
      invariant 0 <= i <= |dirs|
      invariant AddAll(glob, list, dirs[i..]) == AddAll(glob, exclude, dirs)
    {
      assert dirs[i..][1..] == dirs[i + 1..];
      if dirs[i] != "" && !MatchAny(glob, list, dirs[i]) {
        list := list + [OwnGlob(dirs[i])];
      }
      i := i + 1;
    }
  }

  lemma {:induction false} AddAllGrows(glob: Glob, exclude: seq<string>, dirs: seq<string>, path: string)
    requires MatchAny(glob, exclude, path)
    ensures MatchAny(glob, AddAll(glob, exclude, dirs), path)
    decreases |dirs|
  {
    if dirs != [] {
      var i :| 0 <= i < |exclude| && Match(glob, exclude[i], path);
      assert AddOwn(glob, exclude, dirs[0])[i] == exclude[i];
      AddAllGrows(glob, AddOwn(glob, exclude, dirs[0]), dirs[1..], path);
    }
  }

  // ---- the name under which a directory is met ----

  /** The elements of the configured text, as the glob has them: one trailing separator is dropped, and all leading ones. */
  function OwnElements(dir: string): (elements: seq<string>)
    ensures elements != [] ==> elements[0] != ""
  {
    var t := TrimLeft(TrimOneSuffix(dir, '/'), '/');
    TrimLeftStart(TrimOneSuffix(dir, '/'), '/');
    if t == "" then [] else Split(t, '/')
  }

  /** The resolved name depends on those elements only. */
  lemma ResolvedByElements(base: seq<string>, dir: string)
    ensures CleanOnto(base, Split(dir, '/')) == CleanOnto(base, OwnElements(dir))
  {
    hide Split, CleanOnto, TrimLeft;
    var own := TrimOneSuffix(dir, '/');
    CleanDropsLeading(base, own);
    if dir != own {
      assert dir == own + ['/'] + "";
      SplitAppend(own, "", '/');
      CleanDropsLastEmpty(base, Split(own, '/'));
    }
    CleanNothing(base);
  }

  lemma CleanNothing(base: seq<string>)
    ensures Split("", '/') == [""] && CleanOnto(base, [""]) == CleanOnto(base, []) == base
  {
    assert [""][1..] == [];
  }

  lemma TrimsTo(s: string)
    requires s != "" && s[0] != '/' && s[|s| - 1] != '/'
    ensures Trim("/" + s, '/') == s
  {
    assert ("/" + s)[1..] == s;
    assert TrimLeft(s, '/') == s && TrimLeft("/" + s, '/') == TrimLeft(s, '/');
  }

  /** The matcher sees the root as one empty element. */
  lemma RootSegments()
    ensures PathSegments("/") == [""]
  {
    assert TrimLeft("/"[1..], '/') == "";
    assert Trim("/", '/') == "";
  }

  /** The matcher sees a clean name as its elements. */
  lemma CleanSegments(names: seq<string>)
    requires AllProper(names) && names != []
    ensures PathSegments("/" + Join(names, '/')) == names
  {
    hide Join, Split, Trim;
    JoinEnds(names);
    TrimsTo(Join(names, '/'));
    SplitJoin(names, '/');
  }

  // ---- the glob against that name ----

  lemma {:induction false} TrimLeftKeeps(s: string, tail: string)
    ensures TrimLeft(s + tail, '/') == if TrimLeft(s, '/') != "" then TrimLeft(s, '/') + tail else TrimLeft(tail, '/')
  {
    if s == "" {
      assert s + tail == tail;
    } else if s[0] == '/' {
      assert (s + tail)[1..] == s[1..] + tail;
      TrimLeftKeeps(s[1..], tail);
    }
  }

  /** The glob's segments are the elements of the text, then `**`. */
  lemma OwnGlobSegments(dir: string)
    requires '\\' !in dir
    ensures PatternSegments(OwnGlob(dir)) == OwnElements(dir) + [ANY]
  {
    var own := TrimOneSuffix(dir, '/');
    var t := TrimLeft(own, '/');
    assert ReplaceAll(OwnGlob(dir), '\\', '/') == OwnGlob(dir);
    TrimLeftKeeps(own, "/**");
    assert "/**"[1..] == "**";
    SplitPlain("**", '/');
    if t != "" {
      assert t + "/**" == t + ['/'] + "**";
      SplitAppend(t, "**", '/');
    }
  }

  /** The glob written for a directory covers every path that starts with its elements, if these match themselves. */
  lemma OwnGlobMatches(glob: Glob, dir: string, path: string)
    requires '\\' !in dir && OwnElements(dir) <= PathSegments(path)
    requires forall i :: 0 <= i < |OwnElements(dir)| ==> glob(OwnElements(dir)[i], OwnElements(dir)[i])
    ensures Match(glob, OwnGlob(dir), path)
  {
    var elements, segments := OwnElements(dir), PathSegments(path);
    OwnGlobSegments(dir);
    PlainMatchesItself(glob, elements);
    assert segments[..|elements|] == elements;
    TrailingAny(glob, elements, segments);
  }

  /**
   Own-data exclusion, exactly, for the `name` under which the walker meets the directory:
   after `excludeOwnData` no walk returns anything at or under it if and only if the user's list
   matches that name, or the glob was written, because the list does not match the configured
   text, and matches that name.
   */
  lemma OwnDataExactly(glob: Glob, exclude: seq<string>, dir: string, name: string)
    requires '/' in name
    ensures NeverReturned(glob, AddOwn(glob, exclude, dir), name) <==>
      || MatchAny(glob, exclude, name)
      || (dir != "" && !MatchAny(glob, exclude, dir) && Match(glob, OwnGlob(dir), name))
  {
    var list := AddOwn(glob, exclude, dir);
    NeverReturnedExactly(glob, list, name);
    assert forall i :: 0 <= i < |exclude| ==> list[i] == exclude[i];
    if dir != "" && !MatchAny(glob, exclude, dir) { assert list[|exclude|] == OwnGlob(dir); }
  }

  /** A pattern segment without special characters. */
  ghost predicate Literal(glob: Glob, e: string) {
    e != ANY && forall s :: glob(e, s) <==> s == e
  }

  ghost predicate AllLiteral(glob: Glob, elements: seq<string>) {
    forall i :: 0 <= i < |elements| ==> Literal(glob, elements[i])
  }

  lemma {:induction false} LiteralMatch(glob: Glob, elements: seq<string>, path: seq<string>)
    requires AllLiteral(glob, elements)
    ensures MatchSegments(glob, elements, path) <==> elements == path
    decreases |elements|
  {
    if elements != [] {
      assert Literal(glob, elements[0]);
      if path != [] {
        LiteralMatch(glob, elements[1..], path[1..]);
        assert elements == [elements[0]] + elements[1..] && path == [path[0]] + path[1..];
      }
    }
  }

  lemma LiteralGlobMatch(glob: Glob, dir: string, path: string)
    requires '\\' !in dir && AllLiteral(glob, OwnElements(dir))
    ensures Match(glob, OwnGlob(dir), path) <==> OwnElements(dir) <= PathSegments(path)
  {
    var elements, segments := OwnElements(dir), PathSegments(path);
    OwnGlobSegments(dir);
    TrailingAny(glob, elements, segments);
    forall k | 0 <= k <= |segments|
      ensures MatchSegments(glob, elements, segments[..k]) <==> elements == segments[..k]
    {
      LiteralMatch(glob, elements, segments[..k]);
    }
    if elements <= segments { assert elements == segments[..|elements|]; }
  }

  /**
   Without a pattern of the user's, for a directory whose name has no pattern characters: it is
   never walked if and only if the elements of its text start the name that it resolves to.
   */
  lemma OwnNameExactly(glob: Glob, cwd: seq<string>, dir: string)
    requires AllProper(cwd) && '\\' !in dir && AllLiteral(glob, OwnElements(dir))
    ensures NeverReturned(glob, AddOwn(glob, [], dir), Resolved(cwd, dir)) <==>
      dir != "" && OwnElements(dir) <= ResolvedNames(cwd, dir)
  {
    var name, names, elements := Resolved(cwd, dir), ResolvedNames(cwd, dir), OwnElements(dir);
    OwnDataExactly(glob, [], dir, name);
    LiteralGlobMatch(glob, dir, name);
    ResolvedIsProper(cwd, dir);
    if names != [] { CleanSegments(names); }
    RootSegments();
    if names == [] && elements != [] { assert elements[0] != ""; }
  }

  /** Written as `filepath.Abs` would have it, but for repeated leading separators and a single trailing one. */
  predicate PlainlyWritten(dir: string) {
    dir != "" && dir[0] == '/' && AllProper(OwnElements(dir))
  }

  lemma PlainlyResolved(cwd: seq<string>, dir: string)
    requires PlainlyWritten(dir)
    ensures ResolvedNames(cwd, dir) == OwnElements(dir)
    ensures PathSegments(Resolved(cwd, dir)) == PathSegments(dir)
    ensures OwnElements(dir) <= PathSegments(dir)
  {
    hide Split, CleanOnto, Join, Trim, OwnElements;
    var elements := OwnElements(dir);
    ResolvedByElements([], dir);
    CleanKeepsProper([], elements);
    assert [] + elements == elements;
    if elements != [] { CleanSegments(elements); }
    RootSegments();
    PlainSegments(dir);
  }

  lemma PlainSegments(dir: string)
    requires PlainlyWritten(dir)
    ensures PathSegments(dir) == if OwnElements(dir) == [] then [""] else OwnElements(dir)
  {
    hide Split, Join;
    var own := TrimOneSuffix(dir, '/');
    var t := TrimLeft(own, '/');
    TrimmedText(dir);
    CleanNothing([]);
    if t != "" {
      JoinSplit(t, '/');
      JoinEnds(OwnElements(dir));
    }
  }

  /** What is left of a text that ends in at most one separator. */
  lemma TrimmedText(dir: string)
    ensures var t := TrimLeft(TrimOneSuffix(dir, '/'), '/');
      t == "" || t[|t| - 1] != '/' ==> Trim(dir, '/') == t
  {
    var own := TrimOneSuffix(dir, '/');
    var t := TrimLeft(own, '/');
    TrimLeftKeeps(own, "/");
    assert TrimLeft("/", '/') == "" by { assert TrimLeft("/"[1..], '/') == ""; }
    if dir != own { assert dir == own + "/"; }
    assert TrimLeft(dir, '/') == if dir == own || t == "" then t else t + "/";
    assert (t + "/")[..|t|] == t;
    assert TrimRight(t + "/", '/') == TrimRight(t, '/');
  }

  /**
   The text of the directory alone decides: wherever the program is started, the directory is never
   walked, if and only if the text is absolute and has no empty, `.` or `..` element.
   */
  lemma OwnTextDecides(glob: Glob, dir: string)
    requires '\\' !in dir && AllLiteral(glob, OwnElements(dir))
    ensures (forall cwd: seq<string> :: AllProper(cwd) ==> NeverReturned(glob, AddOwn(glob, [], dir), Resolved(cwd, dir)))
       <==> PlainlyWritten(dir)
  {
    var elements := OwnElements(dir);
    hide NeverReturned, OwnElements, Resolved;
    if PlainlyWritten(dir) {
      forall cwd: seq<string> | AllProper(cwd) ensures NeverReturned(glob, AddOwn(glob, [], dir), Resolved(cwd, dir)) {
        PlainlyResolved(cwd, dir);
        OwnNameExactly(glob, cwd, dir);
      }
    } else {
      var cwd := if elements != [] && ProperName(elements[0]) then [elements[0] + "x"] else [];
      Elsewhere(cwd, dir);
      OwnNameExactly(glob, cwd, dir);
    }
  }

  lemma PrefixIsProper(elements: seq<string>, names: seq<string>)
    requires AllProper(names) && elements <= names
    ensures AllProper(elements)
  {
    forall i | 0 <= i < |elements| ensures ProperName(elements[i]) { assert elements[i] == names[i]; }
  }

  /** Started in a directory called after its first element with an `x` appended, the text names another place. */
  lemma Elsewhere(cwd: seq<string>, dir: string)
    requires cwd == if OwnElements(dir) != [] && ProperName(OwnElements(dir)[0]) then [OwnElements(dir)[0] + "x"] else []
    requires !PlainlyWritten(dir)
    ensures AllProper(cwd) && (dir == "" || !(OwnElements(dir) <= ResolvedNames(cwd, dir)))
  {
    var elements, names := OwnElements(dir), ResolvedNames(cwd, dir);
    if cwd != [] { assert cwd[0][|cwd[0]| - 1] == 'x'; }
    ResolvedIsProper(cwd, dir);
    if dir != "" && AllProper(elements) {
      ResolvedByElements(cwd, dir);
      CleanKeepsProper(cwd, elements);
      assert TrimLeft(TrimOneSuffix(dir, '/'), '/') != "";
      assert names == cwd + elements && names[0] == elements[0] + "x" && |names[0]| == |elements[0]| + 1;
    } else if elements <= names {
      PrefixIsProper(elements, names);
    }
  }

  /**
   Every own directory written that way stays unwalked, whatever list the user wrote and whatever
   is appended later, if its elements match themselves.
   */
  lemma OwnDataNeverWalked(glob: Glob, exclude: seq<string>, dirs: seq<string>, k: nat, appended: seq<string>, cwd: seq<string>)
    requires k < |dirs| && PlainlyWritten(dirs[k]) && '\\' !in dirs[k]
    requires forall i :: 0 <= i < |OwnElements(dirs[k])| ==> glob(OwnElements(dirs[k])[i], OwnElements(dirs[k])[i])
    ensures NeverReturned(glob, AddAll(glob, exclude, dirs) + appended, Resolved(cwd, dirs[k]))
  {
    var dir, list := dirs[k], AddAll(glob, exclude, dirs);
    PlainlyResolved(cwd, dir);
    OwnGlobMatches(glob, dir, dir);
    AddAllCovers(glob, exclude, dirs, k);
    var i :| 0 <= i < |list| && Match(glob, list[i], dir);
    assert (list + appended)[i] == list[i];
    assert Match(glob, list[i], Resolved(cwd, dir));
    NeverReturnedExactly(glob, list + appended, Resolved(cwd, dir));
  }

  lemma {:induction false} AddAllCovers(glob: Glob, exclude: seq<string>, dirs: seq<string>, k: nat)
    requires k < |dirs| && dirs[k] != ""
    requires Match(glob, OwnGlob(dirs[k]), dirs[k])
    ensures MatchAny(glob, AddAll(glob, exclude, dirs), dirs[k])
    decreases |dirs|
  {
    var next := AddOwn(glob, exclude, dirs[0]);
    if k == 0 {
      assert MatchAny(glob, next, dirs[0]) by {
        if !MatchAny(glob, exclude, dirs[0]) { assert next[|exclude|] == OwnGlob(dirs[0]); }
      }
      AddAllGrows(glob, next, dirs[1..], dirs[0]);
    } else {
      AddAllCovers(glob, next, dirs[1..], k - 1);
    }
  }

  // ---- two directories that are walked ----

  /** Matching of segments without special characters. */
  function Plainly(): Glob {
    (pattern: string, name: string) => pattern == name
  }

  lemma CleanSteps(base: seq<string>, elements: seq<string>)
    ensures CleanOnto(base, elements) == if elements == [] then base else CleanOnto(StepInto(base, elements[0]), elements[1..])
  {
  }

  lemma DoubledText()
    ensures Split("/h//s", '/') == ["", "h", "", "s"] && OwnElements("/h//s") == ["h", "", "s"]
  {
    hide Split;
    assert Join(["", "h", "", "s"], '/') == "/h//s" && Join(["h", "", "s"], '/') == "h//s";
    SplitJoin(["", "h", "", "s"], '/');
    SplitJoin(["h", "", "s"], '/');
    assert "/h//s"[1..] == "h//s";
  }

  lemma RelativeText(dir: string)
    requires dir == "s" || dir == "./s"
    ensures Split(dir, '/') == OwnElements(dir) == if dir == "s" then ["s"] else [".", "s"]
  {
    hide Split;
    assert Join(["s"], '/') == "s" && Join([".", "s"], '/') == "./s";
    SplitJoin(["s"], '/');
    SplitJoin([".", "s"], '/');
  }

  /** A separator written twice: the program keeps its data in `/h/s`, and walks it. */
  lemma DoubledSeparatorIsWalked(cwd: seq<string>)
    requires AllProper(cwd)
    ensures Resolved(cwd, "/h//s") == "/h/s"
    ensures !NeverReturned(Plainly(), AddOwn(Plainly(), [], "/h//s"), "/h/s")
  {
    hide NeverReturned, AddOwn, OwnElements, ResolvedNames;
    DoubledText();
    DoubledResolves(cwd);
    assert Join(["h", "s"], '/') == "h/s";
    OwnNameExactly(Plainly(), cwd, "/h//s");
  }

  lemma DoubledResolves(cwd: seq<string>)
    ensures ResolvedNames(cwd, "/h//s") == ["h", "s"]
  {
    hide CleanOnto, Split, OwnElements;
    DoubledText();
    CleanSteps([], ["", "h", "", "s"]);
    CleanSteps([], ["h", "", "s"]);
    CleanSteps(["h"], ["", "s"]);
    CleanSteps(["h"], ["s"]);
    CleanSteps(["h", "s"], []);
    assert [] + ["h"] == ["h"] && ["h"] + ["s"] == ["h", "s"];
    assert ["", "h", "", "s"][1..] == ["h", "", "s"] && ["h", "", "s"][1..] == ["", "s"] && ["", "s"][1..] == ["s"] && ["s"][1..] == [];
  }

  /** A relative directory, started in `/h`. */
  lemma RelativeIsWalked(dir: string)
    requires dir == "s" || dir == "./s"
    ensures Resolved(["h"], dir) == "/h/s"
    ensures !NeverReturned(Plainly(), AddOwn(Plainly(), [], dir), "/h/s")
  {
    hide NeverReturned, OwnElements, Split;
    RelativeText(dir);
    assert Join(["h", "s"], '/') == "h/s";
    CleanSteps(["h"], [".", "s"]);
    CleanSteps(["h"], ["s"]);
    CleanSteps(["h", "s"], []);
    assert ResolvedNames(["h"], dir) == ["h", "s"];
    OwnNameExactly(Plainly(), ["h"], dir);
  }
}
