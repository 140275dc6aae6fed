/**
 The bounded, breadth-first look for WordPress installations
 (internal/adapter/wpchecksums/detect.go).
 */
module WordPressSearch {
  import opened Optional
  import opened Text

  /** A directory tree; `install` says whether `Detect` recognises the directory itself. */
  datatype Dir = Dir(path: string, install: bool, readable: bool, entries: seq<DirEntry>)

  /** Only real subdirectories are entered; a link to a directory is recorded unless it leads into covered ground. */
  datatype DirEntry = Sub(name: string, dir: Dir) | LinkedDir(name: string, covered: bool) | Plain(name: string)

  const SKIP_DIRS: set<string> :=
    {"node_modules", "vendor", ".git", ".svn", ".cache", "cache", "wp-content", "wp-includes", "wp-admin"}

  predicate Skipped(name: string) {
    "." <= name || name in SKIP_DIRS
  }

  datatype Stop = Cancelled | DirsCeiling | InstallsCeiling

  datatype Bounds = Bounds(depth: int, maxInstalls: int, maxDirs: int)

  function WithDefaults(b: Bounds): (r: Bounds)
    ensures r.depth > 0 && r.maxInstalls > 0 && r.maxDirs > 0
    ensures b.depth > 0 && b.maxInstalls > 0 && b.maxDirs > 0 ==> r == b
  {
    Bounds(if b.depth <= 0 then 6 else b.depth,
           if b.maxInstalls <= 0 then 25 else b.maxInstalls,
           if b.maxDirs <= 0 then 50_000 else b.maxDirs)
  }

  /** `SearchResult`, as far as the search decides anything by it. */
  datatype Search = Search(installs: seq<string>, walked: nat, stopped: Option<Stop>, links: seq<string>, unreadable: seq<string>)

  const START := Search([], 0, None, [], [])

  // ---- the order of the search ----

  function SubDirs(entries: seq<DirEntry>): seq<Dir> {
    if entries == [] then []
    else
      (if entries[0].Sub? && !Skipped(entries[0].name) then [entries[0].dir] else []) + SubDirs(entries[1..])
  }

  function OpenLinks(path: string, entries: seq<DirEntry>): seq<string> {
    if entries == [] then []
    else
      var e := entries[0];
      (if e.LinkedDir? && !Skipped(e.name) && !e.covered then [path + "/" + e.name] else [])
        + OpenLinks(path, entries[1..])
  }

  function Expand(dir: Dir): seq<Dir> {
    if dir.readable then SubDirs(dir.entries) else []
  }

  function NextLevel(level: seq<Dir>): seq<Dir> {
    if level == [] then [] else Expand(level[0]) + NextLevel(level[1..])
  }

  datatype Visit = Visit(dir: Dir, depth: nat)

  function AtDepth(level: seq<Dir>, d: nat): (vs: seq<Visit>)
    ensures |vs| == |level| && forall i :: 0 <= i < |level| ==> vs[i] == Visit(level[i], d)
  {
    seq(|level|, i requires 0 <= i < |level| => Visit(level[i], d))
  }

  /** Level by level, shallowest first, down to the depth bound. */
  function Order(level: seq<Dir>, d: nat, depth: nat): seq<Visit>
    requires d <= depth
    decreases depth - d
  {
    AtDepth(level, d) + if d < depth then Order(NextLevel(level), d + 1, depth) else []
  }

  /** One directory: cancellation, the ceiling on directories, detection, the ceiling on installations. */
  function Examine(cancelled: nat -> bool, b: Bounds, v: Visit, s: Search): Search {
    if cancelled(s.walked) then s.(stopped := Some(Cancelled))
    else if s.walked >= b.maxDirs then s.(stopped := Some(DirsCeiling))
    else
      var s1 := s.(walked := s.walked + 1);
      var found := v.dir.install && v.dir.path !in s.installs;
      var s2 := if found then s1.(installs := s1.installs + [v.dir.path]) else s1;
      if found && |s2.installs| >= b.maxInstalls then s2.(stopped := Some(InstallsCeiling))
      else if v.depth < b.depth && v.dir.readable then s2.(links := s2.links + OpenLinks(v.dir.path, v.dir.entries))
      else s2
  }

  function Scan(cancelled: nat -> bool, b: Bounds, vs: seq<Visit>, s: Search): Search
    decreases |vs|
  {
    if vs == [] || s.stopped.Some? then s else Scan(cancelled, b, vs[1..], Examine(cancelled, b, vs[0], s))
  }

  // ---- the loops ----

  lemma NextLevelCons(dir: Dir, rest: seq<Dir>)
    ensures NextLevel([dir] + rest) == Expand(dir) + NextLevel(rest)
  {
    assert ([dir] + rest)[1..] == rest;
  }

  lemma {:induction false} NextLevelAppend(a: seq<Dir>, b: seq<Dir>)
    ensures NextLevel(a + b) == NextLevel(a) + NextLevel(b)
  {
    if a == [] {
      assert a + b == b;
    } else {
      var x, rest := Expand(a[0]), a[1..];
      assert a + b == [a[0]] + (rest + b);
      NextLevelAppend(rest, b);
      NextLevelCons(a[0], rest + b);
      NextLevelCons(a[0], rest);
      assert a == [a[0]] + rest;
      assert x + (NextLevel(rest) + NextLevel(b)) == (x + NextLevel(rest)) + NextLevel(b);
    }
  }

  lemma {:induction false} NothingBelowNothing(d: nat, depth: nat)
    requires d <= depth
    ensures Order([], d, depth) == []
    decreases depth - d
  {
    if d < depth { NothingBelowNothing(d + 1, depth); }
  }

  lemma ScanNext(cancelled: nat -> bool, b: Bounds, level: seq<Dir>, d: nat, i: nat, s: Search)
    requires i < |level| && s.stopped.None?
    ensures Scan(cancelled, b, AtDepth(level[i..], d), s)
         == Scan(cancelled, b, AtDepth(level[i + 1..], d), Examine(cancelled, b, Visit(level[i], d), s))
  {
    var todo := AtDepth(level[i..], d);
    assert todo[0] == Visit(level[i], d) && todo[1..] == AtDepth(level[i + 1..], d);
  }

  lemma ScanStops(cancelled: nat -> bool, b: Bounds, vs: seq<Visit>, s: Search)
    requires vs == [] || s.stopped.Some?
    ensures Scan(cancelled, b, vs, s) == s
  {
  }

  /** One level of `walkForWordPress`: the inner loop, with the next level it gathers. */
  method ScanLevel(cancelled: nat -> bool, level: seq<Dir>, d: nat, b: Bounds, start: Search)
    returns (s: Search, next: seq<Dir>)
    requires d <= b.depth && start.stopped.None?
    ensures s == Scan(cancelled, b, AtDepth(level, d), start)
    ensures s.stopped.None? ==> next == if d < b.depth then NextLevel(level) else []
  {
    hide Scan, NextLevel;
    s, next := start, [];
    NoLevel();
    var seen := set p | p in start.installs;
    var i := 0;
    assert level[0..] == level;
    while i < |level|
      invariant 0 <= i <= |level|
      invariant s.stopped.None?
      invariant forall p :: p in seen <==> p in s.installs
      invariant next == if d < b.depth then NextLevel(level[..i]) else []
      invariant Scan(cancelled, b, AtDepth(level, d), start) == Scan(cancelled, b, AtDepth(level[i..], d), s)
    {
      var dir := level[i];
      ghost var rest, before := AtDepth(level[i + 1..], d), s;
      ghost var after := Examine(cancelled, b, Visit(dir, d), s);
      ScanNext(cancelled, b, level, d, i, s);
      if after.stopped.Some? { ScanStops(cancelled, b, rest, after); }
      if cancelled(s.walked) { s := s.(stopped := Some(Cancelled)); return; }
      if s.walked >= b.maxDirs { s := s.(stopped := Some(DirsCeiling)); return; }
      s := s.(walked := s.walked + 1);
      if dir.install && dir.path !in seen {
        seen := seen + {dir.path};
        s := s.(installs := s.installs + [dir.path]);
        if |s.installs| >= b.maxInstalls { s := s.(stopped := Some(InstallsCeiling)); return; }
      }
      if d < b.depth && dir.readable {
        var subs, links := ReadEntries(dir);
        next := next + subs;
        s := s.(links := s.links + links);
      }
      assert s == after;
      GatherOne(level, i);
      i := i + 1;
    }
    assert level[..|level|] == level;
    ScanStops(cancelled, b, AtDepth(level[i..], d), s);
  }

  lemma NoLevel()
    ensures NextLevel([]) == []
  {
  }

  lemma GatherOne(level: seq<Dir>, i: nat)
    requires i < |level|
    ensures NextLevel(level[..i + 1]) == NextLevel(level[..i]) + Expand(level[i])
  {
    assert level[..i + 1] == level[..i] + [level[i]];
    NextLevelAppend(level[..i], [level[i]]);
    NextLevelCons(level[i], []);
    assert [level[i]] + [] == [level[i]];
  }

  lemma {:induction false} ScanAppend(cancelled: nat -> bool, b: Bounds, vs: seq<Visit>, ws: seq<Visit>, s: Search)
    ensures Scan(cancelled, b, vs + ws, s) == Scan(cancelled, b, ws, Scan(cancelled, b, vs, s))
    decreases |vs|
  {
    if vs == [] {
      assert vs + ws == ws;
    } else if s.stopped.None? {
      assert (vs + ws)[1..] == vs[1..] + ws;
      ScanAppend(cancelled, b, vs[1..], ws, Examine(cancelled, b, vs[0], s));
    }
  }

  /** `walkForWordPress`: the nested loops scan the breadth-first order and nothing else. */
  method WalkForWordPress(cancelled: nat -> bool, root: Dir, b: Bounds, start: Search) returns (s: Search)
    requires b.depth >= 0 && start.stopped.None?
    ensures s == Scan(cancelled, b, Order([root], 0, b.depth), start)
  {
    s := start;
    var level := [root];
    var d := 0;
    while d <= b.depth && level != []
      invariant 0 <= d <= b.depth + 1
      invariant s.stopped.None?
      invariant Scan(cancelled, b, Order([root], 0, b.depth), start)
             == Scan(cancelled, b, if d <= b.depth then Order(level, d, b.depth) else [], s)
      decreases b.depth + 1 - d
    {
      ghost var below := if d < b.depth then Order(NextLevel(level), d + 1, b.depth) else [];
      ScanAppend(cancelled, b, AtDepth(level, d), below, s);
      s, level := ScanLevel(cancelled, level, d, b, s);
      if s.stopped.Some? { return; }
      d := d + 1;
    }
    if d <= b.depth { NothingBelowNothing(d, b.depth); }
  }

  /** The loop over one directory's entries. */
  method ReadEntries(dir: Dir) returns (subs: seq<Dir>, links: seq<string>)
    ensures subs == SubDirs(dir.entries) && links == OpenLinks(dir.path, dir.entries)
  {
    hide SubDirs, OpenLinks, Skipped;
    subs, links := [], [];
    NothingToRead(dir.path);
    assert dir.entries[0..] == dir.entries;
    var i := 0;
    while i < |dir.entries|
      invariant 0 <= i <= |dir.entries|
      invariant subs + SubDirs(dir.entries[i..]) == SubDirs(dir.entries)
      invariant links + OpenLinks(dir.path, dir.entries[i..]) == OpenLinks(dir.path, dir.entries)
    {
      var e := dir.entries[i];
      ReadOne(dir.path, dir.entries, i, subs, links);
      if !Skipped(e.name) {
        if e.Sub? {
          subs := subs + [e.dir];
        } else if e.LinkedDir? && !e.covered {
          links := links + [dir.path + "/" + e.name];
        }
      }
      i := i + 1;
    }
    assert dir.entries[|dir.entries|..] == [];
  }

  lemma NothingToRead(path: string)
    ensures SubDirs([]) == [] && OpenLinks(path, []) == []
  {
  }

  /** Entry `i` moves what it contributes from the entries to come to those gathered. */
  lemma ReadOne(path: string, entries: seq<DirEntry>, i: nat, subs: seq<Dir>, links: seq<string>)
    requires i < |entries|
    ensures var e := entries[i];
      && subs + SubDirs(entries[i..]) ==
           (if e.Sub? && !Skipped(e.name) then subs + [e.dir] else subs) + SubDirs(entries[i + 1..])
      && links + OpenLinks(path, entries[i..]) ==
           (if e.LinkedDir? && !Skipped(e.name) && !e.covered then links + [path + "/" + e.name] else links)
             + OpenLinks(path, entries[i + 1..])
  {
    hide Skipped;
    assert entries[i..][0] == entries[i] && entries[i..][1..] == entries[i + 1..];
  }

  // ---- what the bounds guarantee ----

  predicate Distinct(ps: seq<string>) {
    forall i, j :: 0 <= i < j < |ps| ==> ps[i] != ps[j]
  }

  predicate Bounded(b: Bounds, s: Search) {
    && s.walked <= b.maxDirs && |s.installs| <= b.maxInstalls && Distinct(s.installs)
    && (s.stopped.None? ==> |s.installs| < b.maxInstalls)
  }

  lemma {:induction false} ScanBounded(cancelled: nat -> bool, b: Bounds, vs: seq<Visit>, s: Search)
    requires Bounded(b, s)
    ensures Bounded(b, Scan(cancelled, b, vs, s))
    decreases |vs|
  {
    if vs != [] && s.stopped.None? {
      ScanBounded(cancelled, b, vs[1..], Examine(cancelled, b, vs[0], s));
    }
  }

  /** Nothing was examined after a cancellation, and the reason given for a stop is the one there was. */
  predicate Truthful(cancelled: nat -> bool, b: Bounds, s: Search) {
    && (forall k :: 0 <= k < s.walked ==> !cancelled(k))
    && match s.stopped
       case None => true
       case Some(Cancelled) => cancelled(s.walked)
       case Some(DirsCeiling) => s.walked == b.maxDirs
       case Some(InstallsCeiling) => |s.installs| == b.maxInstalls
  }

  lemma {:induction false} ScanTruthful(cancelled: nat -> bool, b: Bounds, vs: seq<Visit>, s: Search)
    requires Bounded(b, s) && Truthful(cancelled, b, s)
    ensures Truthful(cancelled, b, Scan(cancelled, b, vs, s))
    decreases |vs|
  {
    if vs != [] && s.stopped.None? {
      var s1 := Examine(cancelled, b, vs[0], s);
      assert Bounded(b, s1) && Truthful(cancelled, b, s1);
      ScanTruthful(cancelled, b, vs[1..], s1);
    }
  }

  /** One of the first `n` visits is an installation at this path. */
  predicate FoundAmong(vs: seq<Visit>, n: int, path: string) {
    exists i :: 0 <= i < n && i < |vs| && vs[i].dir.install && vs[i].dir.path == path
  }

  lemma FoundInTail(vs: seq<Visit>, n: int, path: string)
    requires vs != [] && FoundAmong(vs[1..], n, path)
    ensures FoundAmong(vs, n + 1, path)
  {
    var i :| 0 <= i < n && i < |vs[1..]| && vs[1..][i].dir.install && vs[1..][i].dir.path == path;
    assert vs[i + 1] == vs[1..][i];
  }

  lemma InPrefix(xs: seq<string>, ys: seq<string>, x: string)
    requires xs <= ys && x in xs
    ensures x in ys
  {
    assert ys == xs + ys[|xs|..];
  }

  /** The scan examined exactly the first so many visits, and kept every installation among them. */
  lemma {:induction false} ScanExamines(cancelled: nat -> bool, b: Bounds, vs: seq<Visit>, s: Search)
    ensures var t := Scan(cancelled, b, vs, s);
      && s.walked <= t.walked <= s.walked + |vs|
      && s.installs <= t.installs
      && (t.stopped.None? ==> t.walked == s.walked + |vs|)
      && (forall i :: 0 <= i < t.walked - s.walked && vs[i].dir.install ==> vs[i].dir.path in t.installs)
      && (forall k :: |s.installs| <= k < |t.installs| ==> FoundAmong(vs, t.walked - s.walked, t.installs[k]))
    decreases |vs|
  {
    if vs != [] && s.stopped.None? {
      var s1 := Examine(cancelled, b, vs[0], s);
      var t := Scan(cancelled, b, vs, s);
      ScanExamines(cancelled, b, vs[1..], s1);
      forall i | 0 <= i < t.walked - s.walked && vs[i].dir.install ensures vs[i].dir.path in t.installs {
        if i > 0 {
          assert vs[i] == vs[1..][i - 1];
        } else {
          assert vs[0].dir.path in s1.installs;
          InPrefix(s1.installs, t.installs, vs[0].dir.path);
        }
      }
      forall k | |s.installs| <= k < |t.installs|
        ensures FoundAmong(vs, t.walked - s.walked, t.installs[k])
      {
        if k >= |s1.installs| {
          FoundInTail(vs, t.walked - s1.walked, t.installs[k]);
        } else {
          assert t.installs[k] == s1.installs[k] == vs[0].dir.path;
        }
      }
    }
  }

  /** `dir` lies below `root` along `names`, none of them skipped and no unreadable directory on the way. */
  predicate Reaches(root: Dir, names: seq<string>, dir: Dir)
    decreases |names|
  {
    if names == [] then root == dir
    else
      && root.readable && !Skipped(names[0])
      && exists k :: 0 <= k < |root.entries| && root.entries[k].Sub? && root.entries[k].name == names[0]
                     && Reaches(root.entries[k].dir, names[1..], dir)
  }

  lemma {:induction false} SubDirsHold(entries: seq<DirEntry>, sub: Dir)
    ensures sub in SubDirs(entries) <==> exists k :: 0 <= k < |entries| && entries[k].Sub? && !Skipped(entries[k].name) && entries[k].dir == sub
    decreases |entries|
  {
    if entries != [] {
      SubDirsHold(entries[1..], sub);
      assert forall k :: 1 <= k < |entries| ==> entries[k] == entries[1..][k - 1];
      assert forall k :: 0 <= k < |entries| - 1 ==> entries[1..][k] == entries[k + 1];
    }
  }

  lemma {:induction false} NextLevelHolds(level: seq<Dir>, sub: Dir)
    ensures sub in NextLevel(level) <==> exists i :: 0 <= i < |level| && sub in Expand(level[i])
    decreases |level|
  {
    if level != [] {
      NextLevelHolds(level[1..], sub);
      assert forall i :: 1 <= i < |level| ==> level[i] == level[1..][i - 1];
      assert forall i :: 0 <= i < |level| - 1 ==> level[1..][i] == level[i + 1];
    }
  }

  predicate ReachedFrom(level: seq<Dir>, names: seq<string>, dir: Dir) {
    exists i :: 0 <= i < |level| && Reaches(level[i], names, dir)
  }

  lemma StepDown(level: seq<Dir>, names: seq<string>, dir: Dir)
    requires names != [] && ReachedFrom(level, names, dir)
    ensures ReachedFrom(NextLevel(level), names[1..], dir)
  {
    var i :| 0 <= i < |level| && Reaches(level[i], names, dir);
    var root := level[i];
    var k :| 0 <= k < |root.entries| && root.entries[k].Sub? && root.entries[k].name == names[0]
             && Reaches(root.entries[k].dir, names[1..], dir);
    SubDirsHold(root.entries, root.entries[k].dir);
    NextLevelHolds(level, root.entries[k].dir);
    assert root.entries[k].dir in NextLevel(level);
    var j :| 0 <= j < |NextLevel(level)| && NextLevel(level)[j] == root.entries[k].dir;
    assert Reaches(NextLevel(level)[j], names[1..], dir);
  }

  lemma StepUp(level: seq<Dir>, names: seq<string>, dir: Dir) returns (full: seq<string>)
    requires ReachedFrom(NextLevel(level), names, dir)
    ensures full != [] && full[1..] == names && ReachedFrom(level, full, dir)
  {
    var j :| 0 <= j < |NextLevel(level)| && Reaches(NextLevel(level)[j], names, dir);
    var sub := NextLevel(level)[j];
    NextLevelHolds(level, sub);
    var i :| 0 <= i < |level| && sub in Expand(level[i]);
    var root := level[i];
    SubDirsHold(root.entries, sub);
    var k :| 0 <= k < |root.entries| && root.entries[k].Sub? && !Skipped(root.entries[k].name) && root.entries[k].dir == sub;
    full := [root.entries[k].name] + names;
    assert full[1..] == names;
    assert Reaches(root, full, dir);
  }

  lemma OrderHere(level: seq<Dir>, d: nat, depth: nat, v: Visit)
    requires d == v.depth <= depth && ReachedFrom(level, [], v.dir)
    ensures v in Order(level, d, depth)
  {
    var i :| 0 <= i < |level| && Reaches(level[i], [], v.dir);
    assert AtDepth(level, d)[i] == v;
    assert Order(level, d, depth)[i] == AtDepth(level, d)[i];
  }

  lemma OrderBelow(level: seq<Dir>, d: nat, depth: nat, next: seq<Dir>, v: Visit)
    requires d < depth && next == NextLevel(level) && v in Order(next, d + 1, depth)
    ensures v in Order(level, d, depth)
  {
  }

  /** The order visits exactly what a chain of unskipped names within the depth reaches, at that depth. */
  lemma {:induction false} OrderComplete(level: seq<Dir>, d: nat, depth: nat, names: seq<string>, v: Visit)
    requires d + |names| == v.depth <= depth && ReachedFrom(level, names, v.dir)
    ensures v in Order(level, d, depth)
    decreases |names|
  {
    if names == [] {
      OrderHere(level, d, depth, v);
    } else {
      var next := NextLevel(level);
      StepDown(level, names, v.dir);
      OrderComplete(next, d + 1, depth, names[1..], v);
      OrderBelow(level, d, depth, next, v);
    }
  }

  lemma {:induction false} OrderSound(level: seq<Dir>, d: nat, depth: nat, v: Visit) returns (names: seq<string>)
    requires d <= depth && v in Order(level, d, depth)
    ensures d <= v.depth == d + |names| <= depth && ReachedFrom(level, names, v.dir)
    decreases depth - d
  {
    if v in AtDepth(level, d) {
      names := [];
      var i :| 0 <= i < |level| && AtDepth(level, d)[i] == v;
      assert Reaches(level[i], [], v.dir);
    } else {
      var rest := OrderSound(NextLevel(level), d + 1, depth, v);
      names := StepUp(level, rest, v.dir);
    }
  }

  predicate DepthSorted(vs: seq<Visit>, from: nat) {
    && (forall i :: 0 <= i < |vs| ==> from <= vs[i].depth)
    && forall i, j :: 0 <= i < j < |vs| ==> vs[i].depth <= vs[j].depth
  }

  lemma {:induction false} OrderShallowFirst(level: seq<Dir>, d: nat, depth: nat)
    requires d <= depth
    ensures DepthSorted(Order(level, d, depth), d)
    decreases depth - d
  {
    if d < depth {
      OrderShallowFirst(NextLevel(level), d + 1, depth);
      DepthSortedAppend(AtDepth(level, d), Order(NextLevel(level), d + 1, depth), d);
    } else {
      assert Order(level, d, depth) == AtDepth(level, d);
    }
  }

  lemma DepthSortedAppend(here: seq<Visit>, below: seq<Visit>, d: nat)
    requires forall i :: 0 <= i < |here| ==> here[i].depth == d
    requires DepthSorted(below, d + 1)
    ensures DepthSorted(here + below, d)
  {
  }

  /**
   A search of one root that a ceiling or a cancellation stopped never misses an installation
   strictly shallower than one it kept.
   */
  lemma ShallowestKept(cancelled: nat -> bool, root: Dir, b: Bounds, kept: int, names: seq<string>, dir: Dir)
    requires b.depth >= 0
    requires var t := Scan(cancelled, b, Order([root], 0, b.depth), START);
      0 <= kept < t.walked && kept < |Order([root], 0, b.depth)|
    requires Reaches(root, names, dir) && dir.install && |names| < Order([root], 0, b.depth)[kept].depth
    ensures dir.path in Scan(cancelled, b, Order([root], 0, b.depth), START).installs
  {
    var order := Order([root], 0, b.depth);
    var names' := OrderSound([root], 0, b.depth, order[kept]);
    assert Reaches([root][0], names, dir);
    OrderComplete([root], 0, b.depth, names, Visit(dir, |names|));
    var i :| 0 <= i < |order| && order[i] == Visit(dir, |names|);
    OrderShallowFirst([root], 0, b.depth);
    assert DepthSorted(order, 0);
    ScanExamines(cancelled, b, order, START);
  }

  // ---- several roots ----

  /** A configured root: left empty, not readable by Stat, or a tree. */
  datatype Root = Blank | Missing(name: string) | Tree(dir: Dir)

  /** Every installation within the depth of every readable root is in the list. */
  ghost predicate AllFound(roots: seq<Root>, depth: int, installs: seq<string>) {
    forall i, names, dir :: 0 <= i < |roots| && InstallIn(roots[i], depth, names, dir) ==> dir.path in installs
  }

  predicate InstallIn(root: Root, depth: int, names: seq<string>, dir: Dir) {
    root.Tree? && |names| <= depth && Reaches(root.dir, names, dir) && dir.install
  }

  /** The path is that of an installation within the depth of some readable root. */
  ghost predicate IsInstall(roots: seq<Root>, depth: int, path: string) {
    exists i, names, dir :: 0 <= i < |roots| && InstallIn(roots[i], depth, names, dir) && dir.path == path
  }

  /** Everything in the list is an installation. */
  ghost predicate AllReal(roots: seq<Root>, depth: int, installs: seq<string>) {
    forall k :: 0 <= k < |installs| ==> IsInstall(roots, depth, installs[k])
  }

  lemma FoundIsInstall(roots: seq<Root>, i: nat, depth: nat, n: int, path: string)
    requires i < |roots| && roots[i].Tree? && FoundAmong(Order([roots[i].dir], 0, depth), n, path)
    ensures IsInstall(roots, depth, path)
  {
    var order := Order([roots[i].dir], 0, depth);
    var j :| 0 <= j < n && j < |order| && order[j].dir.install && order[j].dir.path == path;
    var names := OrderSound([roots[i].dir], 0, depth, order[j]);
    assert InstallIn(roots[i], depth, names, order[j].dir);
  }

  lemma MoreRoots(roots: seq<Root>, i: nat, depth: int, path: string)
    requires i < |roots| && IsInstall(roots[..i], depth, path)
    ensures IsInstall(roots[..i + 1], depth, path)
  {
    var j, names, dir :| 0 <= j < i && InstallIn(roots[..i][j], depth, names, dir) && dir.path == path;
    assert roots[..i + 1][j] == roots[..i][j];
  }

  lemma AllRealGrows(cancelled: nat -> bool, roots: seq<Root>, i: nat, b: Bounds, before: Search, s: Search)
    requires i < |roots| && b.depth >= 0 && AllReal(roots[..i], b.depth, before.installs)
    requires if roots[i].Tree? then s == Scan(cancelled, b, Order([roots[i].dir], 0, b.depth), before)
             else s.installs == before.installs
    ensures AllReal(roots[..i + 1], b.depth, s.installs)
  {
    hide IsInstall, Scan, Order;
    if roots[i].Tree? { ScanExamines(cancelled, b, Order([roots[i].dir], 0, b.depth), before); }
    forall k | 0 <= k < |s.installs| ensures IsInstall(roots[..i + 1], b.depth, s.installs[k]) {
      if k < |before.installs| {
        assert s.installs[k] == before.installs[k];
        MoreRoots(roots, i, b.depth, s.installs[k]);
      } else {
        FoundIsInstall(roots[..i + 1], i, b.depth, s.walked - before.walked, s.installs[k]);
      }
    }
  }

  lemma UnstoppedFindsAll(cancelled: nat -> bool, root: Dir, b: Bounds, s: Search, names: seq<string>, dir: Dir)
    requires b.depth >= 0 && |names| <= b.depth && Reaches(root, names, dir) && dir.install
    requires Scan(cancelled, b, Order([root], 0, b.depth), s).stopped.None?
    ensures dir.path in Scan(cancelled, b, Order([root], 0, b.depth), s).installs
  {
    var order := Order([root], 0, b.depth);
    assert Reaches([root][0], names, dir);
    OrderComplete([root], 0, b.depth, names, Visit(dir, |names|));
    var i :| 0 <= i < |order| && order[i] == Visit(dir, |names|);
    ScanExamines(cancelled, b, order, s);
  }

  /**
   `DetectAll`: neither bound is exceeded, everything listed is an installation of some root and
   listed once, a reason given for stopping is true, and a search that reports none has found every
   installation within the depth of every readable root.
   */
  method DetectAll(cancelled: nat -> bool, roots: seq<Root>, bounds: Bounds) returns (s: Search)
    ensures var b := WithDefaults(bounds);
      && Bounded(b, s) && Truthful(cancelled, b, s) && AllReal(roots, b.depth, s.installs)
      && (s.stopped.None? ==> AllFound(roots, b.depth, s.installs))
  {
    hide Truthful, AllReal, AllFound, Bounded;
    var b := WithDefaults(bounds);
    s := START;
    NothingSearched(cancelled, roots, b);
    var i := 0;
    while i < |roots|
      invariant 0 <= i <= |roots|
      invariant Bounded(b, s) && Truthful(cancelled, b, s) && AllReal(roots[..i], b.depth, s.installs)
      invariant s.stopped.None? ==> AllFound(roots[..i], b.depth, s.installs)
    {
      ghost var before := s;
      match roots[i] {
        case Blank =>
        case Missing(name) =>
          s := s.(unreadable := s.unreadable + [name]);
          OnlyUnreadable(cancelled, b, before, s);
        case Tree(dir) =>
          if s.stopped.Some? {
            RealAnyway(roots, i, b.depth, s.installs);
            return;
          }
          s := WalkForWordPress(cancelled, dir, b, s);
          ScanBounded(cancelled, b, Order([dir], 0, b.depth), before);
          ScanTruthful(cancelled, b, Order([dir], 0, b.depth), before);
      }
      AllRealGrows(cancelled, roots, i, b, before, s);
      if s.stopped.None? {
        AllFoundGrows(cancelled, roots, i, b, before, s);
      }
      i := i + 1;
    }
    assert roots[..|roots|] == roots;
  }

  lemma NothingSearched(cancelled: nat -> bool, roots: seq<Root>, b: Bounds)
    requires b.maxInstalls > 0 && b.maxDirs > 0
    ensures Bounded(b, START) && Truthful(cancelled, b, START)
    ensures AllReal(roots[..0], b.depth, START.installs) && AllFound(roots[..0], b.depth, START.installs)
  {
  }

  lemma OnlyUnreadable(cancelled: nat -> bool, b: Bounds, before: Search, s: Search)
    requires Bounded(b, before) && Truthful(cancelled, b, before) && s == before.(unreadable := s.unreadable)
    ensures Bounded(b, s) && Truthful(cancelled, b, s)
  {
  }

  lemma RealAnyway(roots: seq<Root>, i: nat, depth: int, installs: seq<string>)
    requires i <= |roots| && AllReal(roots[..i], depth, installs)
    ensures AllReal(roots, depth, installs)
  {
    forall k | 0 <= k < |installs| ensures IsInstall(roots, depth, installs[k]) {
      var j, names, dir :| 0 <= j < i && InstallIn(roots[..i][j], depth, names, dir) && dir.path == installs[k];
      assert roots[j] == roots[..i][j];
    }
  }

  lemma AllFoundGrows(cancelled: nat -> bool, roots: seq<Root>, i: nat, b: Bounds, before: Search, s: Search)
    requires i < |roots| && b.depth >= 0 && s.stopped.None?
    requires AllFound(roots[..i], b.depth, before.installs)
    requires if roots[i].Tree? then s == Scan(cancelled, b, Order([roots[i].dir], 0, b.depth), before)
             else s.installs == before.installs
    ensures AllFound(roots[..i + 1], b.depth, s.installs)
  {
    var taken := roots[..i + 1];
    forall j, names, dir | 0 <= j < |taken| && InstallIn(taken[j], b.depth, names, dir)
      ensures dir.path in s.installs
    {
      if j == i {
        UnstoppedFindsAll(cancelled, roots[i].dir, b, before, names, dir);
      } else {
        assert roots[..i][j] == taken[j];
        assert dir.path in before.installs;
        if roots[i].Tree? {
          ScanExamines(cancelled, b, Order([roots[i].dir], 0, b.depth), before);
        }
      }
    }
  }
}
