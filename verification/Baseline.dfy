/**
 The incremental baseline (internal/baseline) and the part of a cycle that decides what is
 scanned and what is remembered (`collectTargets` and the save rule in internal/cycle/cycle.go).
 */
module Baseline {
  import opened Walk

  /** The remembered files, by path. */
  type Files = map<string, Entry>

  /** What HashFile answers, by path; a path that is absent cannot be read. */
  type Disk = map<string, string>

  predicate RealHashes(disk: Disk) {
    forall p :: p in disk ==> disk[p] != ""
  }

  function Front<T>(s: seq<T>): seq<T>
    requires s != []
  {
    s[..|s| - 1]
  }

  function Last<T>(s: seq<T>): T
    requires s != []
  {
    s[|s| - 1]
  }

  // ---- the steps as functions ----

  /** Unknown, changed in size or mtime, or known without a hash. */
  predicate Stale(files: Files, e: Entry) {
    || e.path !in files || files[e.path].size != e.size || files[e.path].mtime != e.mtime
    || files[e.path].sha == ""
  }

  /** `NeedsHash`. */
  function StaleOnes(files: Files, current: seq<Entry>): seq<Entry> {
    if current == [] then []
    else StaleOnes(files, Front(current)) + (if Stale(files, Last(current)) then [Last(current)] else [])
  }

  /** `HashEntries`: unreadable entries are dropped. */
  function Readable(disk: Disk, entries: seq<Entry>): (hashed: seq<Entry>)
    ensures |hashed| <= |entries|
  {
    if entries == [] then []
    else
      var e := Last(entries);
      Readable(disk, Front(entries)) + (if e.path in disk then [e.(sha := disk[e.path])] else [])
  }

  /** A cancellation after `budget` entries drops the rest as well. */
  function Hashed(disk: Disk, entries: seq<Entry>, budget: nat): (hashed: seq<Entry>)
    ensures |hashed| <= |entries|
  {
    Readable(disk, if budget < |entries| then entries[..budget] else entries)
  }

  function ByPath(entries: seq<Entry>): (m: Files)
    ensures forall p :: p in m ==> m[p].path == p
  {
    if entries == [] then map[] else ByPath(Front(entries))[Last(entries).path := Last(entries)]
  }

  /** The current state of one entry: just hashed, or carrying the hash already known. */
  function CurrentOf(files: Files, hashes: Files, e: Entry): Entry {
    if e.path in hashes then hashes[e.path]
    else if e.path in files then e.(sha := files[e.path].sha)
    else e
  }

  function Current(files: Files, hashes: Files, all: seq<Entry>): (c: seq<Entry>)
    ensures |c| == |all| && forall i :: 0 <= i < |all| ==> c[i] == CurrentOf(files, hashes, all[i])
  {
    seq(|all|, i requires 0 <= i < |all| => CurrentOf(files, hashes, all[i]))
  }

  datatype Class = New | Modified | Unchanged

  /** `Compare`, for one entry. */
  function Classify(files: Files, e: Entry): Class {
    if e.path !in files then New
    else
      var previous := files[e.path];
      if e.sha != "" && previous.sha != "" && e.sha != previous.sha then Modified
      else if e.sha == "" && (e.size != previous.size || e.mtime != previous.mtime) then Modified
      else Unchanged
  }

  function OfClass(files: Files, current: seq<Entry>, c: Class): seq<Entry> {
    if current == [] then []
    else OfClass(files, Front(current), c) + (if Classify(files, Last(current)) == c then [Last(current)] else [])
  }

  function Removed(files: Files, current: seq<Entry>): set<string> {
    set p | p in files && forall i :: 0 <= i < |current| ==> current[i].path != p
  }

  function Changed(files: Files, current: seq<Entry>): seq<Entry> {
    OfClass(files, current, New) + OfClass(files, current, Modified)
  }

  function Paths(entries: seq<Entry>): (ps: seq<string>)
    ensures |ps| == |entries| && forall i :: 0 <= i < |entries| ==> ps[i] == entries[i].path
  {
    seq(|entries|, i requires 0 <= i < |entries| => entries[i].path)
  }

  function Put(files: Files, e: Entry): Files {
    if e.sha != "" then files[e.path := e]
    else if e.path in files then files[e.path := e.(sha := files[e.path].sha)]
    else files
  }

  function Updated(files: Files, current: seq<Entry>): Files {
    if current == [] then files else Put(Updated(files, Front(current)), Last(current))
  }

  function WithHash(current: seq<Entry>): seq<Entry> {
    if current == [] then []
    else WithHash(Front(current)) + (if Last(current).sha != "" then [Last(current)] else [])
  }

  /** The targets of a cycle, with the hash each one had, and the baseline it leaves behind. */
  datatype Collected = Collected(targets: seq<Entry>, files: Files)

  function CollectIncremental(files: Files, all: seq<Entry>, disk: Disk, budget: nat): Collected {
    var current := Current(files, ByPath(Hashed(disk, StaleOnes(files, all), budget)), all);
    Collected(Changed(files, current), Updated(files, current) - Removed(files, current))
  }

  /** In full mode the slice to hash is the slice of all entries: hashing compacts it in place. */
  function Compacted(disk: Disk, all: seq<Entry>, budget: nat): seq<Entry> {
    var hashed := Hashed(disk, all, budget);
    hashed + all[|hashed|..]
  }

  function CollectFull(files: Files, all: seq<Entry>, disk: Disk, budget: nat): Collected {
    var current := Current(files, ByPath(Hashed(disk, all, budget)), Compacted(disk, all, budget));
    Collected(WithHash(current), Updated(files, current))
  }

  // ---- the steps as the program takes them ----

  /** `HashEntries`: `out := entries[:0]` shares the argument's storage, so the result overwrites its front. */
  method HashEntries(disk: Disk, budget: nat, a: array<Entry>) returns (kept: nat, unreadable: nat)
    modifies a
    ensures kept == |Hashed(disk, old(a[..]), budget)|
    ensures a[..kept] == Hashed(disk, old(a[..]), budget)
    ensures a[kept..] == old(a[kept..])
    ensures kept + unreadable == if budget < a.Length then budget else a.Length
  {
    kept, unreadable := 0, 0;
    ghost var all := a[..];
    var i := 0;
    while i < a.Length && i < budget
      invariant 0 <= i <= a.Length && i <= budget
      invariant kept + unreadable == i
      invariant a[kept..] == all[kept..]
      invariant a[..kept] == Readable(disk, all[..i])
    {
      var e := a[i];
      assert e == a[kept..][i - kept] == all[kept..][i - kept] == all[i];
      assert Front(all[..i + 1]) == all[..i];
      if e.path !in disk {
        unreadable := unreadable + 1;
      } else {
        a[kept] := e.(sha := disk[e.path]);
        assert a[kept + 1..] == all[kept..][1..];
        kept := kept + 1;
      }
      i := i + 1;
    }
    assert all[..a.Length] == all;
  }

  class Baseline {
    var files: Files

    constructor (files: Files)
      ensures this.files == files
    {
      this.files := files;
    }

    /** `NeedsHash` allocates its result: hashing it leaves the caller's entries alone. */
    method NeedsHash(a: array<Entry>) returns (r: array<Entry>)
      ensures fresh(r) && r[..] == StaleOnes(files, a[..])
    {
      var out: seq<Entry> := [];
      var i := 0;
      while i < a.Length
        invariant 0 <= i <= a.Length
        invariant out == StaleOnes(files, a[..i])
      {
        assert Front(a[..i + 1]) == a[..i];
        if Stale(files, a[i]) { out := out + [a[i]]; }
        i := i + 1;
      }
      assert a[..a.Length] == a[..];
      r := new Entry[|out|](k requires 0 <= k < |out| => out[k]);
      assert r[..] == out;
    }

    /** `Compare` and `Diff.Targets`. */
    method Compare(current: seq<Entry>) returns (targets: seq<Entry>, same: nat, removed: set<string>)
      ensures targets == Changed(files, current) && removed == Removed(files, current)
      ensures |targets| + same == |current|
    {
      var new_, modified: seq<Entry> := [], [];
      same := 0;
      var seen := {};
      var i := 0;
      while i < |current|
        invariant 0 <= i <= |current|
        invariant new_ == OfClass(files, current[..i], New) && modified == OfClass(files, current[..i], Modified)
        invariant |new_| + |modified| + same == i
        invariant forall p :: p in seen <==> exists j :: 0 <= j < i && current[j].path == p
      {
        var e := current[i];
        assert Front(current[..i + 1]) == current[..i];
        seen := seen + {e.path};
        if e.path !in files {
          new_ := new_ + [e];
        } else if e.sha != "" && files[e.path].sha != "" && e.sha != files[e.path].sha {
          modified := modified + [e];
        } else if e.sha == "" && (e.size != files[e.path].size || e.mtime != files[e.path].mtime) {
          modified := modified + [e];
        } else {
          same := same + 1;
        }
        i := i + 1;
      }
      assert current[..|current|] == current;
      targets := new_ + modified;
      removed := set p | p in files && p !in seen;
    }

    /** `Update`. */
    method Update(current: seq<Entry>, removed: set<string>)
      modifies this
      ensures files == Updated(old(files), current) - removed
    {
      var i := 0;
      while i < |current|
        invariant 0 <= i <= |current|
        invariant files == Updated(old(files), current[..i])
      {
        assert Front(current[..i + 1]) == current[..i];
        var e := current[i];
        if e.sha != "" {
          files := files[e.path := e];
        } else if e.path in files {
          files := files[e.path := e.(sha := files[e.path].sha)];
        }
        i := i + 1;
      }
      assert current[..|current|] == current;
      files := files - removed;
    }
  }

  /** `collectTargets`, from the walked entries on. */
  method CollectTargets(bl: Baseline, full: bool, all: array<Entry>, disk: Disk, budget: nat) returns (targets: seq<string>)
    modifies bl, all
    ensures var c := if full then CollectFull(old(bl.files), old(all[..]), disk, budget)
                     else CollectIncremental(old(bl.files), old(all[..]), disk, budget);
      targets == Paths(c.targets) && bl.files == c.files
  {
    ghost var walked := all[..];
    var toHash := all;
    if !full { toHash := bl.NeedsHash(all); }
    var kept, unreadable := HashEntries(disk, budget, toHash);
    assert full ==> all[..] == all[..kept] + all[kept..];
    assert all[..] == if full then Compacted(disk, walked, budget) else walked;
    var current := Merge(bl.files, ByPath(toHash[..kept]), all);
    if full {
      var hashed := KeepHashed(current);
      targets := Paths(hashed);
      bl.Update(current, {});
    } else {
      var changed, same, removed := bl.Compare(current);
      targets := Paths(changed);
      bl.Update(current, removed);
    }
  }

  /** The loop that joins fresh hashes, remembered hashes and entries with neither. */
  method Merge(files: Files, hashes: Files, all: array<Entry>) returns (current: seq<Entry>)
    ensures current == Current(files, hashes, all[..])
  {
    current := [];
    var i := 0;
    while i < all.Length
      invariant 0 <= i <= all.Length
      invariant current == Current(files, hashes, all[..])[..i]
    {
      var e := all[i];
      if e.path in hashes {
        current := current + [hashes[e.path]];
      } else {
        if e.path in files { e := e.(sha := files[e.path].sha); }
        current := current + [e];
      }
      i := i + 1;
    }
  }

  method KeepHashed(current: seq<Entry>) returns (kept: seq<Entry>)
    ensures kept == WithHash(current)
  {
    kept := [];
    var i := 0;
    while i < |current|
      invariant 0 <= i <= |current|
      invariant kept == WithHash(current[..i])
    {
      assert Front(current[..i + 1]) == current[..i];
      if current[i].sha != "" { kept := kept + [current[i]]; }
      i := i + 1;
    }
    assert current[..|current|] == current;
  }
}
