/** `filepath.Clean` and `filepath.Abs`, and the tests for "under" on what they give. */
module Paths {
  import opened Text

  /** What an element of a clean path can be. */
  predicate ProperName(e: string) {
    e != "" && e != "." && e != ".." && '/' !in e
  }

  predicate AllProper(names: seq<string>) {
    forall i :: 0 <= i < |names| ==> ProperName(names[i])
  }

  function StepInto(base: seq<string>, e: string): seq<string> {
    if e == "" || e == "." then base
    else if e == ".." then (if base == [] then [] else base[..|base| - 1])
    else base + [e]
  }

  /** `filepath.Clean` on the elements of a rooted path. */
  function CleanOnto(base: seq<string>, elements: seq<string>): seq<string>
    decreases |elements|
  {
    if elements == [] then base else CleanOnto(StepInto(base, elements[0]), elements[1..])
  }

  function ResolvedNames(cwd: seq<string>, dir: string): seq<string> {
    CleanOnto(if dir != "" && dir[0] == '/' then [] else cwd, Split(dir, '/'))
  }

  /** `filepath.Abs`, for a process in the directory of these names. */
  function Resolved(cwd: seq<string>, dir: string): (name: string)
    ensures '/' in name
  {
    var names := ResolvedNames(cwd, dir);
    if names == [] then "/" else "/" + Join(names, '/')
  }

  lemma {:induction false} CleanIsProper(base: seq<string>, elements: seq<string>)
    requires AllProper(base) && forall i :: 0 <= i < |elements| ==> '/' !in elements[i]
    ensures AllProper(CleanOnto(base, elements))
    decreases |elements|
  {
    if elements != [] {
      CleanIsProper(StepInto(base, elements[0]), elements[1..]);
    }
  }

  lemma ResolvedIsProper(cwd: seq<string>, dir: string)
    requires AllProper(cwd)
    ensures AllProper(ResolvedNames(cwd, dir))
  {
    CleanIsProper(if dir != "" && dir[0] == '/' then [] else cwd, Split(dir, '/'));
  }

  lemma {:induction false} CleanKeepsProper(base: seq<string>, elements: seq<string>)
    requires AllProper(elements)
    ensures CleanOnto(base, elements) == base + elements
    decreases |elements|
  {
    if elements != [] {
      assert ProperName(elements[0]);
      CleanKeepsProper(base + [elements[0]], elements[1..]);
    }
  }

  lemma {:induction false} CleanDropsLastEmpty(base: seq<string>, elements: seq<string>)
    ensures CleanOnto(base, elements + [""]) == CleanOnto(base, elements)
    decreases |elements|
  {
    var longer := elements + [""];
    if elements == [] {
      assert longer[1..] == [];
    } else {
      assert longer[1..] == elements[1..] + [""];
      CleanDropsLastEmpty(StepInto(base, elements[0]), elements[1..]);
    }
  }

  lemma {:induction false} CleanDropsLeading(base: seq<string>, s: string)
    ensures CleanOnto(base, Split(s, '/')) == CleanOnto(base, Split(TrimLeft(s, '/'), '/'))
  {
    if s != "" && s[0] == '/' {
      CleanDropsLeading(base, s[1..]);
      assert Split(s, '/')[1..] == Split(s[1..], '/');
    }
  }

  lemma {:induction false} JoinEnds(names: seq<string>)
    requires names != [] && AllProper(names)
    ensures var s := Join(names, '/'); s != "" && s[0] != '/' && s[|s| - 1] != '/'
  {
    assert ProperName(names[0]);
    if |names| > 1 { JoinEnds(names[1..]); }
  }

  // ---- cleaning without a working directory ----

  predicate Rooted(p: string) {
    p != "" && p[0] == '/'
  }

  /** In a relative path `..` stays where there is nothing to go up from. */
  function StepAlong(base: seq<string>, e: string): seq<string> {
    if e == ".." && (base == [] || base[|base| - 1] == "..") then base + [e] else StepInto(base, e)
  }

  function CleanAlong(base: seq<string>, elements: seq<string>): seq<string>
    decreases |elements|
  {
    if elements == [] then base else CleanAlong(StepAlong(base, elements[0]), elements[1..])
  }

  function CleanNames(p: string): seq<string> {
    if Rooted(p) then CleanOnto([], Split(p, '/')) else CleanAlong([], Split(p, '/'))
  }

  function Spelled(rooted: bool, names: seq<string>): string {
    if rooted then (if names == [] then "/" else "/" + Join(names, '/'))
    else if names == [] then "." else Join(names, '/')
  }

  /** `filepath.Clean`. */
  function Clean(p: string): string {
    Spelled(Rooted(p), CleanNames(p))
  }

  /** What an element of a clean path, relative or not, can be. */
  predicate CleanName(e: string) {
    e != "" && e != "." && '/' !in e
  }

  predicate AllClean(names: seq<string>) {
    forall i :: 0 <= i < |names| ==> CleanName(names[i])
  }

  lemma {:induction false} AlongIsClean(base: seq<string>, elements: seq<string>)
    requires AllClean(base) && forall i :: 0 <= i < |elements| ==> '/' !in elements[i]
    ensures AllClean(CleanAlong(base, elements))
    decreases |elements|
  {
    if elements != [] {
      AlongIsClean(StepAlong(base, elements[0]), elements[1..]);
    }
  }

  lemma CleanNamesAreClean(p: string)
    ensures AllClean(CleanNames(p))
  {
    if Rooted(p) {
      CleanIsProper([], Split(p, '/'));
    } else {
      AlongIsClean([], Split(p, '/'));
    }
  }

  // ---- under, element by element ----

  /** The parts of a spelled path: a rooted one starts with an empty part. */
  function Parts(rooted: bool, names: seq<string>): seq<string> {
    if rooted then [""] + names else if names == [] then ["."] else names
  }

  lemma {:induction false} LastOfJoin(names: seq<string>)
    requires names != [] && AllClean(names)
    ensures var s := Join(names, '/'); s != "" && s[|s| - 1] != '/'
  {
    assert CleanName(names[0]);
    if |names| > 1 { LastOfJoin(names[1..]); }
  }

  /** With the separator of the root itself dropped, a spelled path splits into its parts. */
  lemma PartsOfSpelled(rooted: bool, names: seq<string>)
    requires AllClean(names)
    ensures var s := Spelled(rooted, names);
      && Split(TrimOneSuffix(s, '/'), '/') == Parts(rooted, names)
      && (rooted && names == [] ==> s == "/" && Split(s, '/') == ["", ""])
      && (!rooted || names != [] ==> TrimOneSuffix(s, '/') == s)
  {
    hide Split, Join;
    if names == [] {
      SplitPlain(".", '/');
      SplitPlain("", '/');
      assert "/" == "" + ['/'] + "";
      SplitAtFirst("", "", '/');
    } else {
      var t := Join(names, '/');
      LastOfJoin(names);
      SplitJoin(names, '/');
      assert "/" + t == "" + ['/'] + t;
      SplitAtFirst("", t, '/');
    }
  }

  /** `PathIsWithin`: both sides cleaned, the root's last separator dropped, and the text compared. */
  predicate Within(path: string, root: string) {
    root != "" && AtOrUnder(Clean(path), TrimOneSuffix(Clean(root), '/'))
  }

  /** `PathIsWithinAny`. */
  predicate WithinAny(path: string, roots: seq<string>) {
    exists i :: 0 <= i < |roots| && Within(path, roots[i])
  }

  /** The clean elements of the root start those of the path; `.` contains nothing but itself. */
  predicate Contains(root: string, path: string) {
    && root != "" && Rooted(root) == Rooted(path) && CleanNames(root) <= CleanNames(path)
    && (Rooted(root) || CleanNames(root) != [] || CleanNames(path) == [])
  }

  /** The text comparison after cleaning is containment by whole elements. */
  lemma WithinMeans(path: string, root: string)
    ensures Within(path, root) <==> Contains(root, path)
  {
    hide Split, Clean, CleanNames, Spelled;
    var a, b := CleanNames(root), CleanNames(path);
    CleanNamesAreClean(root);
    CleanNamesAreClean(path);
    WithinSpelled(Rooted(path), b, Rooted(root), a);
    assert Clean(path) == Spelled(Rooted(path), b) && Clean(root) == Spelled(Rooted(root), a) by { CleanSpells(path); CleanSpells(root); }
  }

  predicate ContainedByAny(roots: seq<string>, path: string) {
    exists i :: 0 <= i < |roots| && Contains(roots[i], path)
  }

  lemma WithinAnyMeans(path: string, roots: seq<string>)
    ensures WithinAny(path, roots) <==> ContainedByAny(roots, path)
  {
    hide Within, Contains;
    forall i | 0 <= i < |roots| ensures Within(path, roots[i]) <==> Contains(roots[i], path) { WithinMeans(path, roots[i]); }
  }

  lemma CleanSpells(p: string)
    ensures Clean(p) == Spelled(Rooted(p), CleanNames(p))
  {
  }

  lemma WithinSpelled(r: bool, b: seq<string>, q: bool, a: seq<string>)
    requires AllClean(a) && AllClean(b)
    ensures AtOrUnder(Spelled(r, b), TrimOneSuffix(Spelled(q, a), '/')) <==> q == r && a <= b && (q || a != [] || b == [])
  {
    PartsOfSpelled(r, b);
    PartsOfSpelled(q, a);
    UnderIsByElement(Spelled(r, b), TrimOneSuffix(Spelled(q, a), '/'));
    hide Split, Spelled, AtOrUnder;
    var dir, p := Parts(q, a), if r && b == [] then ["", ""] else Parts(r, b);
    PartsPrefix(q, a, r, b);
  }

  lemma PartsPrefix(q: bool, a: seq<string>, r: bool, b: seq<string>)
    requires AllClean(a) && AllClean(b)
    ensures Parts(q, a) <= (if r && b == [] then ["", ""] else Parts(r, b)) <==> q == r && a <= b && (q || a != [] || b == [])
  {
    if a != [] { assert CleanName(a[0]); }
    if b != [] { assert CleanName(b[0]); }
    var x, y := Parts(q, a), if r && b == [] then ["", ""] else Parts(r, b);
    ConsPrefix("", a, b);
    assert q && a != [] ==> x[1] == a[0];
    assert x <= y ==> x[0] == y[0] && (|x| > 1 ==> x[1] == y[1]);
    assert q && a == [] ==> x == [""];
  }

  lemma ConsPrefix(e: string, a: seq<string>, b: seq<string>)
    ensures [e] + a <= [e] + b <==> a <= b
  {
    if [e] + a <= [e] + b { assert forall i :: 0 <= i < |a| ==> a[i] == ([e] + a)[i + 1] == ([e] + b)[i + 1] == b[i]; }
  }
}
