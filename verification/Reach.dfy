/** Whether a path is served by the web (internal/reach/reach.go). */
module Reach {
  import opened Paths
  import opened Text

  datatype Location = WebReachable | Trash | OutsideDocRoot | Unknown

  /** Unknown counts as reachable: the urgent reading when the answer is not known. */
  predicate Reachable(l: Location) {
    l == WebReachable || l == Unknown
  }

  const TRASH_MARKERS: set<string> := {".trash", "__trash", ".deleted"}

  /** Directories and paths are made absolute from the working directory of the process. */
  datatype Classifier = Classifier(cwd: seq<string>, docRoots: seq<string>, trashes: seq<string>)

  /** `normalize`: absolute and clean; the root of the file system becomes the empty text. */
  function Normalize(cwd: seq<string>, p: string): string {
    if p == "" then "" else TrimOneSuffix(Resolved(cwd, p), '/')
  }

  function NormalizeAll(cwd: seq<string>, ps: seq<string>): seq<string> {
    if ps == [] then []
    else (if Normalize(cwd, ps[0]) != "" then [Normalize(cwd, ps[0])] else []) + NormalizeAll(cwd, ps[1..])
  }

  function NewClassifier(cwd: seq<string>, docRoots: seq<string>, trashDirs: seq<string>): Classifier {
    Classifier(cwd, NormalizeAll(cwd, docRoots), NormalizeAll(cwd, trashDirs))
  }

  function Lower(s: string): string {
    seq(|s|, i requires 0 <= i < |s| => if 'A' <= s[i] <= 'Z' then ((s[i] as int) + 32) as char else s[i])
  }

  /** Some element of the path is a name trash directories have, in any case of its letters. */
  predicate TrashName(p: string) {
    exists i :: 0 <= i < |Split(p, '/')| && Lower(Split(p, '/')[i]) in TRASH_MARKERS
  }

  /** `under`, of any of the directories. */
  predicate UnderAny(p: string, dirs: seq<string>) {
    exists i :: 0 <= i < |dirs| && AtOrUnder(p, dirs[i])
  }

  predicate InTrash(c: Classifier, p: string) {
    UnderAny(p, c.trashes) || TrashName(p)
  }

  /** `Of`: the trash is asked before the document roots. */
  function Of(c: Classifier, path: string): Location {
    var p := Normalize(c.cwd, path);
    if p == "" then Unknown
    else if InTrash(c, p) then Trash
    else if c.docRoots == [] then Unknown
    else if UnderAny(p, c.docRoots) then WebReachable
    else OutsideDocRoot
  }

  lemma {:induction false} NormalizeAllHolds(cwd: seq<string>, ps: seq<string>, q: string)
    ensures q in NormalizeAll(cwd, ps) <==> q != "" && exists i :: 0 <= i < |ps| && Normalize(cwd, ps[i]) == q
  {
    hide Normalize;
    if ps != [] {
      NormalizeAllHolds(cwd, ps[1..], q);
      if i :| 0 <= i < |ps| && Normalize(cwd, ps[i]) == q { if i > 0 { assert ps[1..][i - 1] == ps[i]; } }
      if i :| 0 <= i < |ps[1..]| && Normalize(cwd, ps[1..][i]) == q { assert ps[i + 1] == ps[1..][i]; }
    }
  }

  /** The text names a place other than the root of the file system. */
  predicate Places(cwd: seq<string>, p: string) {
    p != "" && ResolvedNames(cwd, p) != []
  }

  /** The directory, once both are resolved, is an ancestor of the path or the path itself, element by element. */
  predicate Above(cwd: seq<string>, dir: string, p: string) {
    Places(cwd, dir) && ResolvedNames(cwd, dir) <= ResolvedNames(cwd, p)
  }

  predicate AnyAbove(cwd: seq<string>, dirs: seq<string>, p: string) {
    exists i :: 0 <= i < |dirs| && Above(cwd, dirs[i], p)
  }

  predicate AnyPlaces(cwd: seq<string>, dirs: seq<string>) {
    exists i :: 0 <= i < |dirs| && Places(cwd, dirs[i])
  }

  /** What a normalized text is made of. */
  lemma NormalizedParts(cwd: seq<string>, p: string)
    requires AllProper(cwd)
    ensures Normalize(cwd, p) != "" <==> Places(cwd, p)
    ensures Places(cwd, p) ==> Split(Normalize(cwd, p), '/') == [""] + ResolvedNames(cwd, p)
  {
    hide Split, Join, ResolvedNames;
    var names := ResolvedNames(cwd, p);
    ResolvedIsProper(cwd, p);
    assert AllClean(names) by { forall i | 0 <= i < |names| ensures CleanName(names[i]) { assert ProperName(names[i]); } }
    PartsOfSpelled(true, names);
    assert Resolved(cwd, p) == Spelled(true, names);
  }

  lemma AboveHolds(cwd: seq<string>, dir: string, p: string)
    requires AllProper(cwd) && Places(cwd, p) && Normalize(cwd, dir) != ""
    ensures AtOrUnder(Normalize(cwd, p), Normalize(cwd, dir)) <==> Above(cwd, dir, p)
  {
    hide Split, Normalize, ResolvedNames, AtOrUnder;
    NormalizedParts(cwd, dir);
    NormalizedParts(cwd, p);
    UnderIsByElement(Normalize(cwd, p), Normalize(cwd, dir));
    ConsPrefix("", ResolvedNames(cwd, dir), ResolvedNames(cwd, p));
  }

  lemma AnyAboveHolds(cwd: seq<string>, dirs: seq<string>, p: string)
    requires AllProper(cwd) && Places(cwd, p)
    ensures AnyAbove(cwd, dirs, p) <==> UnderAny(Normalize(cwd, p), NormalizeAll(cwd, dirs))
  {
    hide Normalize, NormalizeAll, Places, AtOrUnder, ResolvedNames;
    var ns := NormalizeAll(cwd, dirs);
    if i :| 0 <= i < |ns| && AtOrUnder(Normalize(cwd, p), ns[i]) {
      NormalizeAllHolds(cwd, dirs, ns[i]);
      var k :| 0 <= k < |dirs| && Normalize(cwd, dirs[k]) == ns[i];
      AboveHolds(cwd, dirs[k], p);
    }
    if k :| 0 <= k < |dirs| && Above(cwd, dirs[k], p) {
      NormalizedParts(cwd, dirs[k]);
      AboveHolds(cwd, dirs[k], p);
      NormalizeAllHolds(cwd, dirs, Normalize(cwd, dirs[k]));
      var i :| 0 <= i < |ns| && ns[i] == Normalize(cwd, dirs[k]);
      assert AtOrUnder(Normalize(cwd, p), ns[i]);
    }
  }

  /** Some element of the resolved path is a name trash directories have. */
  predicate TrashElement(cwd: seq<string>, p: string) {
    exists i :: 0 <= i < |ResolvedNames(cwd, p)| && Lower(ResolvedNames(cwd, p)[i]) in TRASH_MARKERS
  }

  lemma TrashNameHolds(cwd: seq<string>, p: string)
    requires AllProper(cwd) && Places(cwd, p)
    ensures TrashName(Normalize(cwd, p)) <==> TrashElement(cwd, p)
  {
    hide Normalize, ResolvedNames, Split;
    var names, parts := ResolvedNames(cwd, p), Split(Normalize(cwd, p), '/');
    NormalizedParts(cwd, p);
    assert Lower(parts[0]) == "";
    if i :| 0 <= i < |parts| && Lower(parts[i]) in TRASH_MARKERS { assert names[i - 1] == parts[i]; }
    if i :| 0 <= i < |names| && Lower(names[i]) in TRASH_MARKERS { assert parts[i + 1] == names[i]; }
  }

  /**
   A file is classed unreachable only on evidence, from the directories as they are configured: it
   lies in a trash, by place or by name, or document roots are known and none of them is an
   ancestor of it. All of that is about the elements of the absolute, clean paths.
   */
  lemma UnreachableMeans(cwd: seq<string>, docRoots: seq<string>, trashDirs: seq<string>, path: string)
    requires AllProper(cwd)
    ensures !Reachable(Of(NewClassifier(cwd, docRoots, trashDirs), path)) <==>
      && Places(cwd, path)
      && (AnyAbove(cwd, trashDirs, path) || TrashElement(cwd, path)
          || (AnyPlaces(cwd, docRoots) && !AnyAbove(cwd, docRoots, path)))
  {
    hide NormalizeAll, Normalize, AnyAbove, UnderAny, TrashName, TrashElement, Places;
    var roots := NormalizeAll(cwd, docRoots);
    NormalizedParts(cwd, path);
    if Places(cwd, path) {
      AnyAboveHolds(cwd, docRoots, path);
      AnyAboveHolds(cwd, trashDirs, path);
      TrashNameHolds(cwd, path);
    }
    AnyPlacesHolds(cwd, docRoots);
  }

  lemma AnyPlacesHolds(cwd: seq<string>, dirs: seq<string>)
    requires AllProper(cwd)
    ensures NormalizeAll(cwd, dirs) != [] <==> AnyPlaces(cwd, dirs)
  {
    hide NormalizeAll, Normalize, Places, ResolvedNames;
    var ns := NormalizeAll(cwd, dirs);
    if ns != [] {
      NormalizeAllHolds(cwd, dirs, ns[0]);
      var i :| 0 <= i < |dirs| && Normalize(cwd, dirs[i]) == ns[0];
      NormalizedParts(cwd, dirs[i]);
    }
    if i :| 0 <= i < |dirs| && Places(cwd, dirs[i]) {
      NormalizedParts(cwd, dirs[i]);
      NormalizeAllHolds(cwd, dirs, Normalize(cwd, dirs[i]));
    }
  }

  /** Removing document roots, short of removing all of them, never turns an unreachable file reachable. */
  lemma FewerRootsFewerReachable(c: Classifier, d: Classifier, path: string)
    requires d.docRoots != [] && d.cwd == c.cwd && d.trashes == c.trashes && forall r :: r in d.docRoots ==> r in c.docRoots
    ensures Reachable(Of(d, path)) ==> Reachable(Of(c, path))
  {
    var p := Normalize(c.cwd, path);
    if i :| 0 <= i < |d.docRoots| && AtOrUnder(p, d.docRoots[i]) {
      assert d.docRoots[i] in c.docRoots;
      var k :| 0 <= k < |c.docRoots| && c.docRoots[k] == d.docRoots[i];
      assert AtOrUnder(p, c.docRoots[k]);
    }
  }
}
