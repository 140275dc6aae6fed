/**
 Walking one configured root (internal/baseline/walk.go) and keeping the walk out of the
 program's own directories (internal/config/load.go).
 */
module Walk {
  import opened Text
  import opened PathMatch

  /** A file as the baseline knows it; the hash is empty until computed. */
  datatype Entry = Entry(path: string, size: int, mtime: int, sha: string, perms: string)

  datatype Kind = Regular | Special | LinkToFile | LinkToDir(insideRoot: bool)

  /** What `WalkDir` meets: `listed` and `readable` say whether ReadDir and Info succeed. */
  datatype Node =
    | Dir(name: string, listed: bool, kids: seq<Node>)
    | File(name: string, kind: Kind, readable: bool, size: int, mtime: int, perms: string)

  datatype Options = Options(exclude: seq<string>, maxDepth: int, maxSize: int, maxFiles: int)

  predicate WellNamed(node: Node)
    decreases node
  {
    '/' !in node.name && (node.Dir? ==> forall i :: 0 <= i < |node.kids| ==> WellNamed(node.kids[i]))
  }

  predicate Pruned(glob: Glob, opts: Options, path: string, depth: nat) {
    depth > 0 && (depth > opts.maxDepth || MatchAny(glob, opts.exclude, path))
  }

  predicate Admissible(glob: Glob, opts: Options, path: string, file: Node)
    requires file.File?
  {
    && file.kind.Regular? && !MatchAny(glob, opts.exclude, path) && file.readable
    && !(opts.maxSize > 0 && file.size > opts.maxSize)
  }

  /** The files a root offers, in the order of the walk: no limit on their number, no counters. */
  function Files(glob: Glob, opts: Options, path: string, depth: nat, node: Node): seq<Entry>
    decreases node, 0
  {
    match node
    case Dir(_, listed, kids) =>
      if Pruned(glob, opts, path, depth) || !listed then [] else FilesIn(glob, opts, path, depth, kids)
    case File(_, _, _, size, mtime, perms) =>
      if Admissible(glob, opts, path, node) then [Entry(path, size, mtime, "", perms)] else []
  }

  function FilesIn(glob: Glob, opts: Options, path: string, depth: nat, kids: seq<Node>): seq<Entry>
    decreases kids, 0
  {
    if kids == [] then []
    else Files(glob, opts, path + "/" + kids[0].name, depth + 1, kids[0]) + FilesIn(glob, opts, path, depth, kids[1..])
  }

  datatype Skips = Skips(unreadable: nat, tooDeep: nat, excluded: nat, notRegular: nat, tooLarge: nat,
                         symlink: nat, symlinkedDir: nat, symlinkedDirCovered: nat)
  {
    function Total(): nat {
      unreadable + tooDeep + excluded + notRegular + tooLarge + symlink + symlinkedDir + symlinkedDirCovered
    }
  }

  const MAX_REPORTED_LINKS: nat := 20

  // ---- what happens to every name ----

  datatype Why = Unreadable | TooDeep | Excluded | NotRegular | TooLarge | Symlink | SymlinkedDir | SymlinkedDirCovered

  /** A name of the tree is kept, or passed over for one reason: a file that was looked at, or a directory that was not entered. */
  datatype Seen = Kept(entry: Entry) | Passed(why: Why, isFile: bool, path: string)

  /** The verdict on one file, in the order in which the callback asks. */
  function SeenFile(glob: Glob, opts: Options, path: string, file: Node): Seen
    requires file.File?
  {
    match file.kind
    case LinkToDir(true) => Passed(SymlinkedDirCovered, true, path)
    case LinkToDir(false) => Passed(SymlinkedDir, true, path)
    case LinkToFile => Passed(Symlink, true, path)
    case Special => Passed(NotRegular, true, path)
    case Regular =>
      if MatchAny(glob, opts.exclude, path) then Passed(Excluded, true, path)
      else if !file.readable then Passed(Unreadable, true, path)
      else if opts.maxSize > 0 && file.size > opts.maxSize then Passed(TooLarge, true, path)
      else Kept(Entry(path, file.size, file.mtime, "", file.perms))
  }

  /** Every name of a tree that the walk meets, in its order, with what becomes of it; no limit on the number of files. */
  function Trace(glob: Glob, opts: Options, path: string, depth: nat, node: Node): seq<Seen>
    decreases node, 0
  {
    if node.File? then [SeenFile(glob, opts, path, node)]
    else if depth > 0 && depth > opts.maxDepth then [Passed(TooDeep, false, path)]
    else if depth > 0 && MatchAny(glob, opts.exclude, path) then [Passed(Excluded, false, path)]
    else if !node.listed then [Passed(Unreadable, false, path)]
    else TraceIn(glob, opts, path, depth, node.kids)
  }

  function TraceIn(glob: Glob, opts: Options, path: string, depth: nat, kids: seq<Node>): seq<Seen>
    decreases kids, 0
  {
    if kids == [] then []
    else Trace(glob, opts, path + "/" + kids[0].name, depth + 1, kids[0]) + TraceIn(glob, opts, path, depth, kids[1..])
  }

  function Entries(trace: seq<Seen>): seq<Entry> {
    if trace == [] then []
    else Entries(trace[..|trace| - 1]) + match trace[|trace| - 1] case Kept(e) => [e] case Passed(_, _, _) => []
  }

  /** The counter of one reason goes up. */
  function Skip(s: Skips, why: Why): Skips {
    match why
    case Unreadable => s.(unreadable := s.unreadable + 1)
    case TooDeep => s.(tooDeep := s.tooDeep + 1)
    case Excluded => s.(excluded := s.excluded + 1)
    case NotRegular => s.(notRegular := s.notRegular + 1)
    case TooLarge => s.(tooLarge := s.tooLarge + 1)
    case Symlink => s.(symlink := s.symlink + 1)
    case SymlinkedDir => s.(symlinkedDir := s.symlinkedDir + 1)
    case SymlinkedDirCovered => s.(symlinkedDirCovered := s.symlinkedDirCovered + 1)
  }

  const NO_SKIPS: Skips := Skips(0, 0, 0, 0, 0, 0, 0, 0)

  function Tally(trace: seq<Seen>): Skips {
    if trace == [] then NO_SKIPS
    else
      var before := Tally(trace[..|trace| - 1]);
      match trace[|trace| - 1]
      case Kept(_) => before
      case Passed(why, _, _) => Skip(before, why)
  }

  /** The files looked at: directories that are not entered are counted as skips, but not here. */
  function Considered(trace: seq<Seen>): nat {
    if trace == [] then 0
    else
      var last := trace[|trace| - 1];
      Considered(trace[..|trace| - 1]) + if last.Kept? || last.isFile then 1 else 0
  }

  /** The links to directories outside the walked ground, of which the first few are reported by name. */
  function LinkedDirs(trace: seq<Seen>): seq<string> {
    if trace == [] then []
    else
      var before, last := LinkedDirs(trace[..|trace| - 1]), trace[|trace| - 1];
      if last.Passed? && last.why.SymlinkedDir? then before + [last.path] else before
  }

  function AtMost(paths: seq<string>, n: nat): seq<string> {
    if |paths| <= n then paths else paths[..n]
  }

  lemma OneMore(trace: seq<Seen>, e: Seen)
    ensures (trace + [e])[..|trace + [e]| - 1] == trace && (trace + [e])[|trace + [e]| - 1] == e
  {
  }

  /** Nothing is skipped silently: every name met is an entry or one counted skip, and the files among them are counted. */
  lemma {:induction false} NothingSilent(trace: seq<Seen>)
    ensures |trace| == |Entries(trace)| + Tally(trace).Total()
    ensures Considered(trace) <= |trace|
  {
    hide Skip;
    if trace != [] {
      var front, last := trace[..|trace| - 1], trace[|trace| - 1];
      NothingSilent(front);
      if last.Passed? { SkipCounts(Tally(front), last.why); }
    }
  }

  lemma {:induction false} LinksCounted(trace: seq<Seen>)
    ensures |LinkedDirs(trace)| == Tally(trace).symlinkedDir
  {
    hide Skip;
    if trace == [] {
      assert Tally(trace) == NO_SKIPS;
    } else {
      var front, last := trace[..|trace| - 1], trace[|trace| - 1];
      LinksCounted(front);
      if last.Passed? {
        SkipCounts(Tally(front), last.why);
        assert Tally(trace) == Skip(Tally(front), last.why);
        assert LinkedDirs(trace) == if last.why.SymlinkedDir? then LinkedDirs(front) + [last.path] else LinkedDirs(front);
      } else {
        assert Tally(trace) == Tally(front) && LinkedDirs(trace) == LinkedDirs(front);
      }
    }
  }

  lemma SkipCounts(s: Skips, why: Why)
    ensures Skip(s, why).Total() == s.Total() + 1
    ensures Skip(s, why).symlinkedDir == s.symlinkedDir + if why.SymlinkedDir? then 1 else 0
  {
  }

  /** `WalkResult` while the callback fills it in. */
  class Walker {
    const glob: Glob
    const opts: Options
    var entries: seq<Entry>
    var skipped: Skips
    var symlinkedDirs: seq<string>
    var truncated: bool
    var considered: nat
    ghost var trace: seq<Seen>

    /** The counters and lists are those of the names met so far, and of the file that hit the limit, if one did. */
    ghost predicate Accounted()
      reads this
    {
      && entries == Entries(trace) && skipped == Tally(trace)
      && considered == Considered(trace) + (if truncated then 1 else 0)
      && symlinkedDirs == AtMost(LinkedDirs(trace), MAX_REPORTED_LINKS)
      && (opts.maxFiles > 0 ==> |entries| <= opts.maxFiles)
    }

    /** The walk has met all these names; or it stopped at a file it would have kept, being at the limit. */
    ghost predicate Met(all: seq<Seen>)
      reads this
    {
      if truncated then trace < all && all[|trace|].Kept? && opts.maxFiles > 0 && |entries| == opts.maxFiles
      else trace == all
    }

    constructor (glob: Glob, opts: Options)
      ensures this.glob == glob && this.opts == opts && Accounted() && Met([]) && !truncated
    {
      this.glob, this.opts := glob, opts;
      entries, symlinkedDirs, truncated, considered, trace := [], [], false, 0, [];
      skipped := NO_SKIPS;
    }

    /** Passing over one name: its counter goes up, and the first few links to directories are remembered. */
    method Pass(why: Why, isFile: bool, path: string)
      requires Accounted() && !truncated
      modifies this
      ensures Accounted() && !truncated && trace == old(trace) + [Passed(why, isFile, path)]
    {
      OneMore(trace, Passed(why, isFile, path));
      skipped := Skip(skipped, why);
      if isFile { considered := considered + 1; }
      if why.SymlinkedDir? && |symlinkedDirs| < MAX_REPORTED_LINKS { symlinkedDirs := symlinkedDirs + [path]; }
      trace := trace + [Passed(why, isFile, path)];
    }

    /** The walk callback on one name and, below a directory that is not pruned, on its content. */
    method Visit(path: string, depth: nat, node: Node) returns (stop: bool)
      requires Accounted() && !truncated
      modifies this
      ensures Accounted() && Met(old(trace) + Trace(glob, opts, path, depth, node)) && stop == truncated
      decreases node, 1
    {
      stop := false;
      if node.File? {
        stop := VisitFile(path, node);
        return;
      }
      if depth > 0 && depth > opts.maxDepth {
        Pass(TooDeep, false, path);
        return;
      }
      if depth > 0 && MatchAny(glob, opts.exclude, path) {
        Pass(Excluded, false, path);
        return;
      }
      if !node.listed {
        Pass(Unreadable, false, path);
        return;
      }
      ghost var all := old(trace) + TraceIn(glob, opts, path, depth, node.kids);
      var i := 0;
      while i < |node.kids|
        invariant 0 <= i <= |node.kids|
        invariant Accounted() && !truncated && !stop
        invariant trace + TraceIn(glob, opts, path, depth, node.kids[i..]) == all
      {
        ghost var before, rest := trace, TraceIn(glob, opts, path, depth, node.kids[i + 1..]);
        assert node.kids[i..][1..] == node.kids[i + 1..];
        ghost var here := Trace(glob, opts, path + "/" + node.kids[i].name, depth + 1, node.kids[i]);
        assert before + (here + rest) == (before + here) + rest;
        stop := Visit(path + "/" + node.kids[i].name, depth + 1, node.kids[i]);
        if stop {
          assert all[|trace|] == (before + here)[|trace|];
          return;
        }
        i := i + 1;
      }
      assert trace == all;
    }

    method VisitFile(path: string, file: Node) returns (stop: bool)
      requires file.File? && Accounted() && !truncated
      modifies this
      ensures Accounted() && Met(old(trace) + [SeenFile(glob, opts, path, file)]) && stop == truncated
    {
      stop := false;
      match file.kind {
        case LinkToDir(true) => Pass(SymlinkedDirCovered, true, path); return;
        case LinkToDir(false) => Pass(SymlinkedDir, true, path); return;
        case LinkToFile => Pass(Symlink, true, path); return;
        case Special => Pass(NotRegular, true, path); return;
        case Regular =>
      }
      if MatchAny(glob, opts.exclude, path) {
        Pass(Excluded, true, path);
        return;
      }
      if !file.readable {
        Pass(Unreadable, true, path);
        return;
      }
      if opts.maxSize > 0 && file.size > opts.maxSize {
        Pass(TooLarge, true, path);
        return;
      }
      considered := considered + 1;
      if opts.maxFiles > 0 && |entries| >= opts.maxFiles {
        truncated := true;
        return true;
      }
      var e := Entry(path, file.size, file.mtime, "", file.perms);
      OneMore(trace, Kept(e));
      entries := entries + [e];
      trace := trace + [Kept(e)];
    }
  }

  lemma {:induction false} EntriesAppend(a: seq<Seen>, b: seq<Seen>)
    ensures Entries(a + b) == Entries(a) + Entries(b)
    decreases |b|
  {
    if b == [] {
      assert a + b == a;
    } else {
      assert (a + b)[..|a + b| - 1] == a + b[..|b| - 1];
      EntriesAppend(a, b[..|b| - 1]);
    }
  }

  /** The entries of a whole tree are its admissible files. */
  lemma {:induction false} TraceFiles(glob: Glob, opts: Options, path: string, depth: nat, node: Node)
    ensures Entries(Trace(glob, opts, path, depth, node)) == Files(glob, opts, path, depth, node)
    decreases node, 0
  {
    if node.Dir? && !Pruned(glob, opts, path, depth) && node.listed {
      TraceFilesIn(glob, opts, path, depth, node.kids);
    } else {
      var t := Trace(glob, opts, path, depth, node);
      assert |t| == 1 && t[..0] == [];
    }
  }

  lemma {:induction false} TraceFilesIn(glob: Glob, opts: Options, path: string, depth: nat, kids: seq<Node>)
    ensures Entries(TraceIn(glob, opts, path, depth, kids)) == FilesIn(glob, opts, path, depth, kids)
    decreases kids, 0
  {
    if kids != [] {
      TraceFiles(glob, opts, path + "/" + kids[0].name, depth + 1, kids[0]);
      TraceFilesIn(glob, opts, path, depth, kids[1..]);
      EntriesAppend(Trace(glob, opts, path + "/" + kids[0].name, depth + 1, kids[0]), TraceIn(glob, opts, path, depth, kids[1..]));
    }
  }

  /** A walk that stopped early holds the first files, and there was one more. */
  lemma CutFiles(trace: seq<Seen>, all: seq<Seen>)
    requires trace < all && all[|trace|].Kept?
    ensures |Entries(trace)| < |Entries(all)| && Entries(trace) == Entries(all)[..|Entries(trace)|]
  {
    var next, rest := [all[|trace|]], all[|trace| + 1..];
    assert all == trace + (next + rest);
    EntriesAppend(trace, next + rest);
    EntriesAppend(next, rest);
    assert next[..0] == [];
  }

  /**
   `Walk`: the entries are the root's files, cut at the limit, and the cut is reported; every name
   met before the cut is counted where it belongs. Every link to a directory outside the walked
   ground is counted, and the first few are named.
   */
  method WalkRoot(glob: Glob, opts: Options, root: string, node: Node) returns (walker: Walker)
    requires node.Dir?
    ensures fresh(walker) && walker.opts == opts && walker.Accounted() && walker.Met(Trace(glob, opts, root, 0, node))
    ensures var files := Files(glob, opts, root, 0, node);
      && walker.truncated == (opts.maxFiles > 0 && |files| > opts.maxFiles)
      && walker.entries == if walker.truncated then files[..opts.maxFiles] else files
    ensures |walker.symlinkedDirs| ==
      if walker.skipped.symlinkedDir <= MAX_REPORTED_LINKS then walker.skipped.symlinkedDir else MAX_REPORTED_LINKS
  {
    walker := new Walker(glob, opts);
    var stop := walker.Visit(root, 0, node);
    ghost var all := Trace(glob, opts, root, 0, node);
    assert [] + all == all;
    TraceFiles(glob, opts, root, 0, node);
    if walker.truncated { CutFiles(walker.trace, all); }
    LinksCounted(walker.trace);
  }

  // ---- what keeps a directory out of every walk ----

  /** No walk of a root outside `dir`, over any tree, returns a file at or under `dir`. */
  ghost predicate NeverReturned(glob: Glob, exclude: seq<string>, dir: string) {
    forall opts: Options, root: string, node: Node, i: nat ::
      opts.exclude == exclude && WellNamed(node) && !AtOrUnder(root, dir) && i < |Files(glob, opts, root, 0, node)| ==>
      !AtOrUnder(Files(glob, opts, root, 0, node)[i].path, dir)
  }

  lemma {:induction false} PruningStops(glob: Glob, opts: Options, path: string, depth: nat, node: Node, dir: string, i: nat)
    requires MatchAny(glob, opts.exclude, dir) && WellNamed(node)
    requires !AtOrUnder(path, dir) || (path == dir && depth > 0)
    requires i < |Files(glob, opts, path, depth, node)|
    ensures !AtOrUnder(Files(glob, opts, path, depth, node)[i].path, dir)
    decreases node, 0
  {
    if node.Dir? {
      PruningStopsIn(glob, opts, path, depth, node.kids, dir, i);
    }
  }

  lemma {:induction false} PruningStopsIn(glob: Glob, opts: Options, path: string, depth: nat, kids: seq<Node>, dir: string, i: nat)
    requires MatchAny(glob, opts.exclude, dir) && forall k :: 0 <= k < |kids| ==> WellNamed(kids[k])
    requires !AtOrUnder(path, dir)
    requires i < |FilesIn(glob, opts, path, depth, kids)|
    ensures !AtOrUnder(FilesIn(glob, opts, path, depth, kids)[i].path, dir)
    decreases kids, 0
  {
    var child := path + "/" + kids[0].name;
    var here := Files(glob, opts, child, depth + 1, kids[0]);
    if i < |here| {
      assert '/' !in kids[0].name;
      ChildAtOrUnder(path, kids[0].name, dir);
      PruningStops(glob, opts, child, depth + 1, kids[0], dir, i);
    } else {
      PruningStopsIn(glob, opts, path, depth, kids[1..], dir, i - |here|);
    }
  }

  function LastSlash(s: string): (k: nat)
    requires '/' in s
    ensures k < |s| && s[k] == '/' && '/' !in s[k + 1..]
  {
    if s[|s| - 1] == '/' then |s| - 1
    else
      assert s == s[..|s| - 1] + [s[|s| - 1]];
      var k := LastSlash(s[..|s| - 1]);
      assert s[k + 1..] == s[..|s| - 1][k + 1..] + [s[|s| - 1]];
      k
  }

  /** Matching the directory itself is exactly what keeps every walk out of it. */
  lemma NeverReturnedExactly(glob: Glob, exclude: seq<string>, dir: string)
    requires '/' in dir
    ensures NeverReturned(glob, exclude, dir) <==> MatchAny(glob, exclude, dir)
  {
    if MatchAny(glob, exclude, dir) {
      forall opts: Options, root: string, node: Node, i: nat |
        opts.exclude == exclude && WellNamed(node) && !AtOrUnder(root, dir) && i < |Files(glob, opts, root, 0, node)|
        ensures !AtOrUnder(Files(glob, opts, root, 0, node)[i].path, dir)
      {
        PruningStops(glob, opts, root, 0, node, dir, i);
      }
    } else {
      var k := LastSlash(dir);
      var root, file := dir[..k], File(dir[k + 1..], Regular, true, 0, 0, "");
      var node, opts := Dir("", true, [file]), Options(exclude, 1, 0, 0);
      assert dir == root + "/" + file.name;
      assert Files(glob, opts, root, 0, node) == FilesIn(glob, opts, root, 0, [file]);
      assert [file][1..] == [];
      assert FilesIn(glob, opts, root, 0, [file]) == Files(glob, opts, dir, 1, file);
      assert WellNamed(file) && WellNamed(node);
      assert Files(glob, opts, root, 0, node)[0].path == dir;
    }
  }
}
