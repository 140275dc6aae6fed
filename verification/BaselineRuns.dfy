/** What the baseline guarantees over whole runs of cycles, and where it does not. */
module BaselineRuns {
  import opened Walk
  import opened Baseline

  // ---- one cycle, and the rule that decides whether its baseline is kept ----

  /** `lost`: the stored baseline could not be read. `persisted`, `stored`: those writes succeeded. */
  datatype Cycle = Cycle(full: bool, walked: seq<Entry>, disk: Disk, budget: nat, lost: bool,
                         persisted: bool, voted: bool, stored: bool)

  /** The walker hands over entries without hashes, and a computed hash is never empty. */
  predicate Plausible(c: Cycle) {
    RealHashes(c.disk) && forall i :: 0 <= i < |c.walked| ==> c.walked[i].sha == ""
  }

  function Collect(c: Cycle, files: Files): Collected {
    if c.full then CollectFull(files, c.walked, c.disk, c.budget)
    else CollectIncremental(files, c.walked, c.disk, c.budget)
  }

  function Loaded(c: Cycle, stored: Files): Files {
    if c.lost then map[] else stored
  }

  /** The baseline on disk after a run of cycles, from an installation that has none. */
  function Stored(cycles: seq<Cycle>): Files {
    if cycles == [] then map[]
    else
      var before, c := Stored(Front(cycles)), Last(cycles);
      if c.persisted && c.voted && c.stored then Collect(c, Loaded(c, before)).files else before
  }

  /** The targets, with their hashes, of cycle `i` of a run. */
  function TargetsOf(cycles: seq<Cycle>, i: nat): seq<Entry>
    requires i < |cycles|
  {
    Collect(cycles[i], Loaded(cycles[i], Stored(cycles[..i]))).targets
  }

  // ---- provenance ----

  predicate Sound(files: Files) {
    forall p :: p in files ==> files[p].path == p && files[p].sha != ""
  }

  predicate Listed(entries: seq<Entry>, p: string, h: string) {
    exists j :: 0 <= j < |entries| && entries[j].path == p && entries[j].sha == h
  }

  predicate Accounted(files: Files, targets: seq<Entry>, p: string, h: string) {
    (p in files && files[p].sha == h) || Listed(targets, p, h)
  }

  lemma {:induction false} OfClassHolds(files: Files, current: seq<Entry>, c: Class, i: nat)
    requires i < |current| && Classify(files, current[i]) == c
    ensures current[i] in OfClass(files, current, c)
  {
    if i < |current| - 1 {
      assert Front(current)[i] == current[i];
      OfClassHolds(files, Front(current), c, i);
    }
  }

  lemma {:induction false} WithHashHolds(current: seq<Entry>, i: nat)
    requires i < |current| && current[i].sha != ""
    ensures current[i] in WithHash(current)
  {
    if i < |current| - 1 {
      assert Front(current)[i] == current[i];
      WithHashHolds(Front(current), i);
    }
  }

  lemma {:induction false} UpdatedAccounted(files: Files, current: seq<Entry>, targets: seq<Entry>)
    requires Sound(files)
    requires forall i :: 0 <= i < |current| && current[i].sha != "" ==>
      Accounted(files, targets, current[i].path, current[i].sha)
    ensures var u := Updated(files, current);
      Sound(u) && forall p :: p in u ==> Accounted(files, targets, p, u[p].sha)
  {
    if current != [] {
      assert forall i :: 0 <= i < |current| - 1 ==> Front(current)[i] == current[i];
      UpdatedAccounted(files, Front(current), targets);
    }
  }

  /** No empty hash is ever stored, and every stored pair was stored before or is a target now. */
  lemma CollectAccounted(c: Cycle, files: Files)
    requires Plausible(c) && Sound(files)
    ensures var r := Collect(c, files);
      Sound(r.files) && forall p :: p in r.files ==> Accounted(files, r.targets, p, r.files[p].sha)
  {
    var r := Collect(c, files);
    if c.full {
      var current := Current(files, ByPath(Hashed(c.disk, c.walked, c.budget)), Compacted(c.disk, c.walked, c.budget));
      forall i | 0 <= i < |current| && current[i].sha != ""
        ensures Accounted(files, r.targets, current[i].path, current[i].sha)
      {
        WithHashHolds(current, i);
      }
      UpdatedAccounted(files, current, r.targets);
    } else {
      var current := Current(files, ByPath(Hashed(c.disk, StaleOnes(files, c.walked), c.budget)), c.walked);
      forall i | 0 <= i < |current| && current[i].sha != ""
        ensures Accounted(files, r.targets, current[i].path, current[i].sha)
      {
        OfClassHolds(files, current, Classify(files, current[i]), i);
        if Classify(files, current[i]) != Unchanged { assert current[i] in r.targets; }
      }
      UpdatedAccounted(files, current, r.targets);
    }
  }

  /** In some cycle of the run in which an engine voted, the file was a target with that hash. */
  ghost predicate VotedTarget(cycles: seq<Cycle>, p: string, h: string) {
    exists i :: 0 <= i < |cycles| && cycles[i].voted && Listed(TargetsOf(cycles, i), p, h)
  }

  /**
   Baseline provenance: after any run, every stored path carries a real hash, and with that very
   hash it was a target of an earlier cycle in which at least one engine voted.
   */
  lemma {:induction false} Provenance(cycles: seq<Cycle>)
    requires forall i :: 0 <= i < |cycles| ==> Plausible(cycles[i])
    ensures Sound(Stored(cycles))
    ensures forall p :: p in Stored(cycles) ==> VotedTarget(cycles, p, Stored(cycles)[p].sha)
  {
    if cycles != [] {
      hide Stored, Collect, VotedTarget, Plausible, Sound;
      Provenance(Front(cycles));
      ProvenanceStep(cycles);
    } else {
      assert Stored(cycles) == map[];
    }
  }

  lemma VotedTargetStays(cycles: seq<Cycle>, p: string, h: string)
    requires cycles != [] && VotedTarget(Front(cycles), p, h)
    ensures VotedTarget(cycles, p, h)
  {
    hide TargetsOf;
    var i :| 0 <= i < |Front(cycles)| && Front(cycles)[i].voted && Listed(TargetsOf(Front(cycles), i), p, h);
    TargetsStay(cycles, i);
    assert cycles[i].voted && Listed(TargetsOf(cycles, i), p, h);
  }

  lemma TargetsStay(cycles: seq<Cycle>, i: nat)
    requires i < |cycles| - 1
    ensures Front(cycles)[i] == cycles[i] && TargetsOf(Front(cycles), i) == TargetsOf(cycles, i)
  {
    hide Collect, Loaded;
    assert Front(cycles)[..i] == cycles[..i];
  }

  lemma ProvenanceStep(cycles: seq<Cycle>)
    requires cycles != [] && Plausible(Last(cycles)) && Sound(Stored(Front(cycles)))
    requires forall p :: p in Stored(Front(cycles)) ==> VotedTarget(Front(cycles), p, Stored(Front(cycles))[p].sha)
    ensures Sound(Stored(cycles)) && forall p :: p in Stored(cycles) ==> VotedTarget(cycles, p, Stored(cycles)[p].sha)
  {
    hide Collect, Plausible, Listed;
    var c, before, n := Last(cycles), Stored(Front(cycles)), |cycles| - 1;
    assert cycles[..n] == Front(cycles);
    CollectAccounted(c, Loaded(c, before));
    forall p | p in Stored(cycles) ensures VotedTarget(cycles, p, Stored(cycles)[p].sha) {
      var sha := Stored(cycles)[p].sha;
      if p in before && before[p].sha == sha {
        VotedTargetStays(cycles, p, sha);
      } else {
        assert cycles[n].voted && Listed(TargetsOf(cycles, n), p, sha);
      }
    }
  }

  /**
   A cycle in which no engine voted leaves the stored baseline as it was: the cycle after it offers
   the engines exactly what it would have offered had the other never been run.
   */
  lemma {:induction false} NoVoteNoAdvance(cycles: seq<Cycle>, c: Cycle, next: Cycle)
    requires !c.voted
    ensures Stored(cycles + [c]) == Stored(cycles)
    ensures TargetsOf(cycles + [c] + [next], |cycles| + 1) == TargetsOf(cycles + [next], |cycles|)
    ensures Stored(cycles + [c] + [next]) == Stored(cycles + [next])
  {
    hide Stored, Collect;
    StoredAppend(cycles, c);
    StoredAppend(cycles + [c], next);
    StoredAppend(cycles, next);
    TargetsAppend(cycles + [c], next);
    TargetsAppend(cycles, next);
  }

  lemma StoredAppend(cycles: seq<Cycle>, c: Cycle)
    ensures Stored(cycles + [c]) ==
      if c.persisted && c.voted && c.stored then Collect(c, Loaded(c, Stored(cycles))).files else Stored(cycles)
  {
    hide Collect, Loaded;
    assert Front(cycles + [c]) == cycles;
  }

  lemma TargetsAppend(cycles: seq<Cycle>, c: Cycle)
    ensures TargetsOf(cycles + [c], |cycles|) == Collect(c, Loaded(c, Stored(cycles))).targets
  {
    hide Collect, Loaded, Stored;
    assert (cycles + [c])[..|cycles|] == cycles;
  }

  // ---- the cheap filter against hashing everything ----

  /** Overlapping roots list a file more than once; each time it has the same size, time and permissions. */
  predicate Coherent(all: seq<Entry>) {
    forall i, j :: 0 <= i < j < |all| && all[i].path == all[j].path ==> all[i] == all[j]
  }

  /** The true content of every walked file, whether or not it can be read this time. */
  predicate Describes(content: map<string, string>, all: seq<Entry>, disk: Disk) {
    && (forall i :: 0 <= i < |all| ==> all[i].path in content && content[all[i].path] != "")
    && (forall p :: p in disk && p in content ==> disk[p] == content[p])
  }

  /** Equal size and mtime mean equal content since the baseline was taken. */
  predicate FilterHonest(content: map<string, string>, files: Files, all: seq<Entry>) {
    forall i :: 0 <= i < |all| && all[i].path in content && !Stale(files, all[i]) ==>
      content[all[i].path] == files[all[i].path].sha
  }

  /** What hashing every file would feed to `Compare`. */
  function HashEverything(content: map<string, string>, all: seq<Entry>): (c: seq<Entry>)
    requires forall i :: 0 <= i < |all| ==> all[i].path in content
    ensures |c| == |all| && forall i :: 0 <= i < |all| ==> c[i] == all[i].(sha := content[all[i].path])
  {
    seq(|all|, i requires 0 <= i < |all| => all[i].(sha := content[all[i].path]))
  }

  /** What an incremental cycle hashes before it is cancelled: the first `budget` stale entries. */
  function Wanted(files: Files, all: seq<Entry>, budget: nat): seq<Entry> {
    Processed(StaleOnes(files, all), budget)
  }

  /** The incremental cycle got to this file, and could read it. */
  predicate HashedNow(files: Files, all: seq<Entry>, disk: Disk, budget: nat, p: string) {
    p in disk && Names(Wanted(files, all, budget), p)
  }

  predicate Names(entries: seq<Entry>, p: string) {
    exists i :: 0 <= i < |entries| && entries[i].path == p
  }

  lemma NamesLast(entries: seq<Entry>, p: string)
    requires entries != []
    ensures Names(entries, p) <==> Names(Front(entries), p) || Last(entries).path == p
  {
    var front := Front(entries);
    if i :| 0 <= i < |entries| && entries[i].path == p {
      if i < |front| { assert front[i].path == p; }
    }
    if k :| 0 <= k < |front| && front[k].path == p { assert entries[k].path == p; }
    assert entries[|entries| - 1] == Last(entries);
  }

  /** Which names a hashed list holds, whatever is repeated in it. */
  lemma {:induction false} ByPathNames(disk: Disk, entries: seq<Entry>, p: string)
    ensures var m := ByPath(Readable(disk, entries));
      && (p in m <==> p in disk && Names(entries, p))
      && (p in m ==> m[p].sha == disk[p])
  {
    if entries != [] {
      hide Readable, ByPath, Names;
      ByPathNames(disk, Front(entries), p);
      ByPathLast(disk, entries);
      NamesLast(entries, p);
    }
  }

  lemma {:induction false} ByPathAt(disk: Disk, entries: seq<Entry>, j: nat)
    requires Coherent(entries) && j < |entries| && entries[j].path in disk
    ensures var m := ByPath(Readable(disk, entries));
      entries[j].path in m && m[entries[j].path] == entries[j].(sha := disk[entries[j].path])
  {
    hide Readable, ByPath;
    var front := Front(entries);
    assert forall i :: 0 <= i < |front| ==> front[i] == entries[i];
    ByPathLast(disk, entries);
    if j < |front| {
      ByPathAt(disk, front, j);
      assert Last(entries).path == entries[j].path ==> Last(entries) == entries[j];
    }
  }

  lemma ByPathAppend(es: seq<Entry>, e: Entry)
    ensures ByPath(es + [e]) == ByPath(es)[e.path := e]
  {
    assert Front(es + [e]) == es && Last(es + [e]) == e;
  }

  lemma ByPathLast(disk: Disk, entries: seq<Entry>)
    requires entries != []
    ensures var before, e := ByPath(Readable(disk, Front(entries))), Last(entries);
      ByPath(Readable(disk, entries)) == if e.path in disk then before[e.path := e.(sha := disk[e.path])] else before
  {
    hide ByPath;
    var e, r := Last(entries), Readable(disk, Front(entries));
    if e.path in disk {
      ByPathAppend(r, e.(sha := disk[e.path]));
    } else {
      assert r + [] == r;
    }
  }

  lemma {:induction false} StaleOnesHold(files: Files, all: seq<Entry>)
    ensures var s := StaleOnes(files, all);
      && |s| <= |all|
      && (forall i :: 0 <= i < |all| && Stale(files, all[i]) ==> all[i] in s)
      && (forall j :: 0 <= j < |s| ==> Stale(files, s[j]) && s[j] in all)
  {
    if all != [] {
      var front := Front(all);
      assert forall i :: 0 <= i < |front| ==> front[i] == all[i];
      StaleOnesHold(files, front);
      var s := StaleOnes(files, all);
      forall j | 0 <= j < |s| ensures Stale(files, s[j]) && s[j] in all {
        if j < |StaleOnes(files, front)| {
          assert s[j] in front;
        }
      }
    }
  }

  lemma SubsetCoherent(all: seq<Entry>, s: seq<Entry>)
    requires Coherent(all) && forall j :: 0 <= j < |s| ==> s[j] in all
    ensures Coherent(s)
  {
    forall i, j | 0 <= i < j < |s| && s[i].path == s[j].path ensures s[i] == s[j] {
      var a :| 0 <= a < |all| && all[a] == s[i];
      var b :| 0 <= b < |all| && all[b] == s[j];
      assert a < b ==> all[a] == all[b];
      assert b < a ==> all[b] == all[a];
    }
  }

  lemma WantedHold(files: Files, all: seq<Entry>, budget: nat)
    ensures forall j :: 0 <= j < |Wanted(files, all, budget)| ==>
      Stale(files, Wanted(files, all, budget)[j]) && Wanted(files, all, budget)[j] in all
  {
    StaleOnesHold(files, all);
    var s, w := StaleOnes(files, all), Wanted(files, all, budget);
    assert forall j :: 0 <= j < |w| ==> w[j] == s[j];
  }

  lemma TwinsAgree(all: seq<Entry>, i: nat, e: Entry)
    requires Coherent(all) && i < |all| && e in all && e.path == all[i].path
    ensures e == all[i]
  {
    var k :| 0 <= k < |all| && all[k] == e;
    assert k < i ==> all[k] == all[i];
    assert i < k ==> all[i] == all[k];
  }

  lemma FreshHash(files: Files, all: seq<Entry>, disk: Disk, budget: nat, i: nat)
    requires Coherent(all) && i < |all|
    ensures var m, p := ByPath(Hashed(disk, StaleOnes(files, all), budget)), all[i].path;
      && (p in m <==> HashedNow(files, all, disk, budget, p))
      && (p in m ==> m[p] == all[i].(sha := disk[p]) && Stale(files, all[i]))
  {
    hide ByPath, Readable, Stale;
    var w, p := Wanted(files, all, budget), all[i].path;
    assert Hashed(disk, StaleOnes(files, all), budget) == Readable(disk, w);
    WantedHold(files, all, budget);
    ByPathNames(disk, w, p);
    if HashedNow(files, all, disk, budget, p) {
      var j :| 0 <= j < |w| && w[j].path == p;
      SubsetCoherent(all, w);
      TwinsAgree(all, i, w[j]);
      ByPathAt(disk, w, j);
    }
  }

  /** What an incremental cycle knows of each entry, cancelled or not. */
  lemma IncrementalCurrent(files: Files, all: seq<Entry>, disk: Disk, budget: nat, i: nat)
    requires Coherent(all) && i < |all|
    ensures Current(files, ByPath(Hashed(disk, StaleOnes(files, all), budget)), all)[i] ==
      if HashedNow(files, all, disk, budget, all[i].path) then all[i].(sha := disk[all[i].path])
      else if all[i].path in files then all[i].(sha := files[all[i].path].sha)
      else all[i]
    ensures HashedNow(files, all, disk, budget, all[i].path) ==> Stale(files, all[i])
  {
    hide ByPath, Hashed, Stale, HashedNow;
    FreshHash(files, all, disk, budget, i);
  }

  /** When nothing cuts the hashing short, what is hashed is what is stale and can be read. */
  lemma UncutHashes(files: Files, all: seq<Entry>, disk: Disk, budget: nat, i: nat)
    requires Coherent(all) && i < |all| && budget >= |all|
    ensures HashedNow(files, all, disk, budget, all[i].path) <==> Stale(files, all[i]) && all[i].path in disk
  {
    StaleOnesHold(files, all);
    WantedHold(files, all, budget);
    var w := Wanted(files, all, budget);
    if j :| 0 <= j < |w| && w[j].path == all[i].path { TwinsAgree(all, i, w[j]); }
    if Stale(files, all[i]) {
      assert all[i] in StaleOnes(files, all);
      var j :| 0 <= j < |w| && w[j] == all[i];
    }
  }

  /** Every entry of the class in one list is of the class in the other. */
  predicate ClassWithin(files: Files, a: seq<Entry>, b: seq<Entry>, c: Class)
    requires |a| == |b|
  {
    forall i :: 0 <= i < |a| ==> (Classify(files, a[i]) == c ==> Classify(files, b[i]) == c)
  }

  predicate SamePaths(a: seq<Entry>, b: seq<Entry>) {
    |a| == |b| && forall i :: 0 <= i < |a| ==> a[i].path == b[i].path
  }

  lemma FrontsAgree(files: Files, a: seq<Entry>, b: seq<Entry>, c: Class)
    requires a != [] && SamePaths(a, b)
    ensures SamePaths(Front(a), Front(b)) && Last(a).path == Last(b).path
    ensures ClassWithin(files, a, b, c) <==>
      ClassWithin(files, Front(a), Front(b), c) && (Classify(files, Last(a)) == c ==> Classify(files, Last(b)) == c)
  {
    hide Classify;
    var n := |a| - 1;
    assert forall i :: 0 <= i < n ==> Front(a)[i] == a[i] && Front(b)[i] == b[i];
    if ClassWithin(files, Front(a), Front(b), c) && (Classify(files, Last(a)) == c ==> Classify(files, Last(b)) == c) {
      forall i | 0 <= i < |a| ensures Classify(files, a[i]) == c ==> Classify(files, b[i]) == c {
        if i < n { assert Front(a)[i] == a[i]; }
      }
    }
  }

  lemma {:induction false} FewerOfClass(files: Files, a: seq<Entry>, b: seq<Entry>, c: Class)
    requires SamePaths(a, b) && ClassWithin(files, a, b, c)
    ensures |OfClass(files, a, c)| <= |OfClass(files, b, c)|
    ensures !ClassWithin(files, b, a, c) ==> |OfClass(files, a, c)| < |OfClass(files, b, c)|
  {
    if a != [] {
      hide Classify, ClassWithin;
      FrontsAgree(files, a, b, c);
      FrontsAgree(files, b, a, c);
      FewerOfClass(files, Front(a), Front(b), c);
    } else {
      assert b == [];
    }
  }

  lemma {:induction false} SameClassesSameTargets(files: Files, a: seq<Entry>, b: seq<Entry>, c: Class)
    requires SamePaths(a, b) && ClassWithin(files, a, b, c) && ClassWithin(files, b, a, c)
    ensures Paths(OfClass(files, a, c)) == Paths(OfClass(files, b, c))
  {
    if a != [] {
      hide Classify, ClassWithin;
      FrontsAgree(files, a, b, c);
      FrontsAgree(files, b, a, c);
      SameClassesSameTargets(files, Front(a), Front(b), c);
    }
  }

  /**
   A known file, changed in size or mtime, whose content changed and which the cycle does not hash:
   it cannot be read, or the cycle was cancelled before it.
   */
  predicate Overlooked(files: Files, all: seq<Entry>, disk: Disk, budget: nat, content: map<string, string>, e: Entry) {
    && e.path in files && Stale(files, e) && !HashedNow(files, all, disk, budget, e.path)
    && e.path in content && content[e.path] != files[e.path].sha
  }

  /** The same for one entry, whose merged value is already known. */
  lemma AgreesOn(files: Files, e: Entry, merged: Entry, hashed: bool, truth: string)
    requires e.sha == "" && truth != "" && (e.path in files ==> files[e.path].sha != "")
    requires hashed ==> Stale(files, e)
    requires !Stale(files, e) ==> truth == files[e.path].sha
    requires merged == if hashed then e.(sha := truth) else if e.path in files then e.(sha := files[e.path].sha) else e
    ensures Classify(files, merged) == New <==> Classify(files, e.(sha := truth)) == New
    ensures Classify(files, merged) == Modified ==> Classify(files, e.(sha := truth)) == Modified
    ensures (Classify(files, e.(sha := truth)) == Modified && Classify(files, merged) != Modified)
       <==> e.path in files && Stale(files, e) && !hashed && truth != files[e.path].sha
  {
  }

  lemma AgreesAt(files: Files, all: seq<Entry>, disk: Disk, budget: nat, content: map<string, string>, i: nat)
    requires Sound(files) && Coherent(all) && RealHashes(disk) && i < |all| && forall k :: 0 <= k < |all| ==> all[k].sha == ""
    requires Describes(content, all, disk) && FilterHonest(content, files, all)
    ensures var current := Current(files, ByPath(Hashed(disk, StaleOnes(files, all), budget)), all);
      var reference := HashEverything(content, all);
      && current[i].path == reference[i].path == all[i].path
      && (Classify(files, current[i]) == New <==> Classify(files, reference[i]) == New)
      && (Classify(files, current[i]) == Modified ==> Classify(files, reference[i]) == Modified)
      && ((Classify(files, reference[i]) == Modified && Classify(files, current[i]) != Modified)
          <==> Overlooked(files, all, disk, budget, content, all[i]))
  {
    var e, hashed := all[i], HashedNow(files, all, disk, budget, all[i].path);
    assert hashed ==> disk[e.path] == content[e.path];
    hide ByPath, Hashed, HashedNow, Current, Classify, Stale;
    IncrementalCurrent(files, all, disk, budget, i);
    var merged := Current(files, ByPath(Hashed(disk, StaleOnes(files, all), budget)), all)[i];
    AgreesOn(files, e, merged, hashed, content[e.path]);
  }

  /**
   The incremental pipeline offers exactly the files that hashing every file would offer, if and
   only if it hashes every known file with changed content: one that cannot be read, and one it
   was cancelled before, counts as unchanged.
   */
  lemma IncrementalAgrees(files: Files, all: seq<Entry>, disk: Disk, budget: nat, content: map<string, string>)
    requires Sound(files) && Coherent(all) && RealHashes(disk)
    requires forall i :: 0 <= i < |all| ==> all[i].sha == ""
    requires Describes(content, all, disk) && FilterHonest(content, files, all)
    ensures Paths(CollectIncremental(files, all, disk, budget).targets) == Paths(Changed(files, HashEverything(content, all)))
       <==> forall i :: 0 <= i < |all| ==> !Overlooked(files, all, disk, budget, content, all[i])
  {
    assert forall i :: 0 <= i < |all| ==> all[i].path in content;
    hide ByPath, Hashed, Classify, Overlooked, Sound, Describes, FilterHonest;
    var current := Current(files, ByPath(Hashed(disk, StaleOnes(files, all), budget)), all);
    var reference := HashEverything(content, all);
    forall i | 0 <= i < |all|
      ensures current[i].path == reference[i].path == all[i].path
      ensures Classify(files, current[i]) == New <==> Classify(files, reference[i]) == New
      ensures Classify(files, current[i]) == Modified ==> Classify(files, reference[i]) == Modified
      ensures (Classify(files, reference[i]) == Modified && Classify(files, current[i]) != Modified)
         <==> Overlooked(files, all, disk, budget, content, all[i])
    {
      AgreesAt(files, all, disk, budget, content, i);
    }
    SameClassesSameTargets(files, current, reference, New);
    FewerOfClass(files, current, reference, Modified);
    var a, b := Paths(Changed(files, current)), Paths(Changed(files, reference));
    PathsAppend(OfClass(files, current, New), OfClass(files, current, Modified));
    PathsAppend(OfClass(files, reference, New), OfClass(files, reference, Modified));
    if forall i :: 0 <= i < |all| ==> !Overlooked(files, all, disk, budget, content, all[i]) {
      SameClassesSameTargets(files, current, reference, Modified);
      assert a == b;
    } else {
      var i :| 0 <= i < |all| && Overlooked(files, all, disk, budget, content, all[i]);
      assert Classify(files, reference[i]) == Modified && Classify(files, current[i]) != Modified;
      assert !ClassWithin(files, reference, current, Modified);
      assert |Paths(OfClass(files, current, New))| == |Paths(OfClass(files, reference, New))|;
      assert |a| < |b|;
    }
  }

  lemma PathsAppend(a: seq<Entry>, b: seq<Entry>)
    ensures Paths(a + b) == Paths(a) + Paths(b)
  {
  }

  // ---- what the next cycle sees ----

  lemma {:induction false} UpdatedAt(files: Files, current: seq<Entry>, i: nat)
    requires Coherent(current) && i < |current|
    ensures var e, u := current[i], Updated(files, current);
      if e.sha != "" then e.path in u && u[e.path] == e
      else if e.path in files then e.path in u && u[e.path] == e.(sha := files[e.path].sha)
      else e.path !in u
  {
    var front, e := Front(current), current[i];
    assert forall k :: 0 <= k < |front| ==> front[k] == current[k];
    if i < |front| {
      UpdatedAt(files, front, i);
      assert Last(current).path == e.path ==> Last(current) == e;
    } else if k :| 0 <= k < |front| && front[k].path == e.path {
      assert current[k] == e;
      UpdatedAt(files, front, k);
    } else {
      UpdatedElsewhere(files, front, e.path);
    }
  }

  lemma {:induction false} UpdatedElsewhere(files: Files, current: seq<Entry>, p: string)
    requires forall i :: 0 <= i < |current| ==> current[i].path != p
    ensures p in Updated(files, current) <==> p in files
    ensures p in files ==> Updated(files, current)[p] == files[p]
  {
    if current != [] {
      assert forall k :: 0 <= k < |current| - 1 ==> Front(current)[k] == current[k];
      UpdatedElsewhere(files, Front(current), p);
    }
  }

  /** The baseline an incremental cycle leaves, entry by entry, cancelled or not. */
  lemma LeftBehind(files: Files, all: seq<Entry>, disk: Disk, budget: nat, i: nat)
    requires Sound(files) && Coherent(all) && RealHashes(disk) && i < |all|
    requires forall k :: 0 <= k < |all| ==> all[k].sha == ""
    ensures var e, next := all[i], CollectIncremental(files, all, disk, budget).files;
      if HashedNow(files, all, disk, budget, e.path) then e.path in next && next[e.path] == e.(sha := disk[e.path])
      else if e.path in files then e.path in next && next[e.path] == e.(sha := files[e.path].sha)
      else e.path !in next
  {
    assert HashedNow(files, all, disk, budget, all[i].path) ==> disk[all[i].path] != "";
    hide ByPath, Hashed, HashedNow, Updated;
    var hashes := ByPath(Hashed(disk, StaleOnes(files, all), budget));
    var current := Current(files, hashes, all);
    forall k | 0 <= k < |all| ensures current[k].path == all[k].path && current[k] == CurrentOf(files, hashes, all[k]) {
      IncrementalCurrent(files, all, disk, budget, k);
    }
    IncrementalCurrent(files, all, disk, budget, i);
    assert Coherent(current);
    UpdatedAt(files, current, i);
    var e, next := all[i], CollectIncremental(files, all, disk, budget).files;
    assert next == Updated(files, current) - Removed(files, current);
    assert current[i].path == e.path && e.path !in Removed(files, current);
    assert e.path in next <==> e.path in Updated(files, current);
  }

  lemma {:induction false} NoneOfClass(files: Files, current: seq<Entry>, c: Class)
    ensures OfClass(files, current, c) == [] <==> forall i :: 0 <= i < |current| ==> Classify(files, current[i]) != c
  {
    if current != [] {
      assert forall k :: 0 <= k < |current| - 1 ==> Front(current)[k] == current[k];
      NoneOfClass(files, Front(current), c);
    }
  }

  /**
   A baseline has settled for a walked file: it knows the file unless the file is still new, and of
   what can be read it remembers the present size and time.
   */
  predicate Settled(next: Files, disk: Disk, e: Entry, stillNew: bool) {
    && (e.path in next <==> !stillNew)
    && (e.path in next ==> next[e.path].sha != "" && (e.path in disk ==> !Stale(next, e)))
  }

  lemma SettledClass(next: Files, all: seq<Entry>, disk: Disk, budget: nat, i: nat, stillNew: bool)
    requires Coherent(all) && i < |all| && all[i].sha == "" && Settled(next, disk, all[i], stillNew)
    ensures Classify(next, Current(next, ByPath(Hashed(disk, StaleOnes(next, all), budget)), all)[i]) == if stillNew then New else Unchanged
  {
    hide ByPath, Hashed, Current;
    IncrementalCurrent(next, all, disk, budget, i);
  }

  lemma QuietOnceSettled(next: Files, all: seq<Entry>, disk: Disk, budget: nat, stillNew: Entry -> bool)
    requires Coherent(all) && forall i :: 0 <= i < |all| ==> all[i].sha == ""
    requires forall i :: 0 <= i < |all| ==> Settled(next, disk, all[i], stillNew(all[i]))
    ensures CollectIncremental(next, all, disk, budget).targets == [] <==> (forall i :: 0 <= i < |all| ==> !stillNew(all[i]))
  {
    hide Hashed, ByPath, StaleOnes, Classify, Settled;
    var current := Current(next, ByPath(Hashed(disk, StaleOnes(next, all), budget)), all);
    forall i | 0 <= i < |all| ensures Classify(next, current[i]) == if stillNew(all[i]) then New else Unchanged {
      SettledClass(next, all, disk, budget, i, stillNew(all[i]));
    }
    NoneOfClass(next, current, New);
    NoneOfClass(next, current, Modified);
    if i :| 0 <= i < |all| && stillNew(all[i]) {
      assert Classify(next, current[i]) == New;
    }
  }

  /**
   After a stored incremental cycle, a second one over the same disk has no targets, if and only
   if the first hashed every file that was unknown: those it could not read, or was cancelled
   before, stay new. Where the second is cancelled does not matter.
   */
  lemma QuietSecondCycle(files: Files, all: seq<Entry>, disk: Disk, budget: nat, again: nat)
    requires Sound(files) && Coherent(all) && RealHashes(disk)
    requires forall i :: 0 <= i < |all| ==> all[i].sha == ""
    ensures CollectIncremental(CollectIncremental(files, all, disk, budget).files, all, disk, again).targets == [] <==>
      (forall i :: 0 <= i < |all| ==> all[i].path in files || HashedNow(files, all, disk, budget, all[i].path))
  {
    assert forall p :: HashedNow(files, all, disk, budget, p) ==> p in disk && disk[p] != "";
    hide CollectIncremental, HashedNow;
    var next := CollectIncremental(files, all, disk, budget).files;
    var stillNew := (e: Entry) => e.path !in files && !HashedNow(files, all, disk, budget, e.path);
    forall i | 0 <= i < |all| ensures Settled(next, disk, all[i], stillNew(all[i])) {
      LeftBehind(files, all, disk, budget, i);
    }
    QuietOnceSettled(next, all, disk, again, stillNew);
    assert forall i :: 0 <= i < |all| ==>
      (stillNew(all[i]) <==> !(all[i].path in files || HashedNow(files, all, disk, budget, all[i].path)));
  }

  /**
   The same after a stored full cycle, although its compaction has overwritten some of the entries
   it goes on to remember: a file whose slot is lost keeps what the baseline knew of it.
   */
  lemma {:induction false} QuietAfterFull(files: Files, all: seq<Entry>, disk: Disk, budget: nat, again: nat)
    requires Sound(files) && Coherent(all) && RealHashes(disk)
    requires forall i :: 0 <= i < |all| ==> all[i].sha == ""
    ensures CollectIncremental(CollectFull(files, all, disk, budget).files, all, disk, again).targets == [] <==>
      (forall i :: 0 <= i < |all| ==> all[i].path in files || HashedSlot(disk, all, budget, all[i].path))
  {
    hide CollectIncremental, CollectFull, Sound, HashedSlot;
    var next := CollectFull(files, all, disk, budget).files;
    var stillNew := (e: Entry) => e.path !in files && !HashedSlot(disk, all, budget, e.path);
    forall i | 0 <= i < |all| ensures Settled(next, disk, all[i], stillNew(all[i])) {
      FullSettles(files, all, disk, budget, i);
    }
    QuietOnceSettled(next, all, disk, again, stillNew);
    assert forall i :: 0 <= i < |all| ==>
      (stillNew(all[i]) <==> !(all[i].path in files || HashedSlot(disk, all, budget, all[i].path)));
  }

  /** Full mode hashed the path, in one of its slots. */
  predicate HashedSlot(disk: Disk, all: seq<Entry>, budget: nat, p: string) {
    exists h :: 0 <= h < |all| && HashedAt(disk, all, budget, h) && all[h].path == p
  }

  predicate FullValue(files: Files, disk: Disk, all: seq<Entry>, budget: nat, e: Entry, c: Entry) {
    c == if HashedSlot(disk, all, budget, e.path) && e.path in disk then e.(sha := disk[e.path])
         else if e.path in files then e.(sha := files[e.path].sha) else e
  }

  /** Some walked entry has this value in full mode. */
  predicate FullOf(files: Files, disk: Disk, all: seq<Entry>, budget: nat, c: Entry) {
    exists k :: 0 <= k < |all| && all[k].path == c.path && FullValue(files, disk, all, budget, all[k], c)
  }

  function FullMerged(files: Files, all: seq<Entry>, disk: Disk, budget: nat): (current: seq<Entry>)
    ensures |current| == |all|
  {
    Current(files, ByPath(Hashed(disk, all, budget)), Compacted(disk, all, budget))
  }

  lemma HashedValue(disk: Disk, all: seq<Entry>, budget: nat, k: nat)
    requires Coherent(all) && RealHashes(disk) && k < |all|
    ensures var m, p := ByPath(Hashed(disk, all, budget)), all[k].path;
      && (p in m <==> HashedSlot(disk, all, budget, p))
      && (p in m ==> p in disk && m[p] == all[k].(sha := disk[p]))
  {
    hide ByPath, Readable;
    var processed, p := Processed(all, budget), all[k].path;
    HashedNames(disk, all, budget, p);
    if HashedSlot(disk, all, budget, p) {
      var h :| 0 <= h < |all| && HashedAt(disk, all, budget, h) && all[h].path == p;
      assert processed[h] == all[h];
      assert forall j :: 0 <= j < |processed| ==> processed[j] == all[j];
      ByPathAt(disk, processed, h);
      TwinsAgree(all, k, all[h]);
    }
  }

  /** What full mode merges, one slot at a time: hashed under its path if any slot of that path was, else as walked. */
  lemma FullSlot(files: Files, all: seq<Entry>, disk: Disk, budget: nat, i: nat)
    requires Coherent(all) && RealHashes(disk) && i < |all| && forall k :: 0 <= k < |all| ==> all[k].sha == ""
    ensures FullOf(files, disk, all, budget, FullMerged(files, all, disk, budget)[i])
  {
    hide ByPath;
    var r, c, k := Hashed(disk, all, budget), FullMerged(files, all, disk, budget)[i], i;
    if i < |r| {
      k := ReadableFrom(disk, Processed(all, budget), i);
      assert HashedAt(disk, all, budget, k);
    }
    HashedValue(disk, all, budget, k);
    assert all[k].path == c.path && FullValue(files, disk, all, budget, all[k], c);
  }

  lemma ValueOfTwin(files: Files, disk: Disk, all: seq<Entry>, budget: nat, i: nat, c: Entry)
    requires Coherent(all) && i < |all| && FullOf(files, disk, all, budget, c) && c.path == all[i].path
    ensures FullValue(files, disk, all, budget, all[i], c)
  {
    hide FullValue;
    var k :| 0 <= k < |all| && all[k].path == c.path && FullValue(files, disk, all, budget, all[k], c);
    TwinsAgree(all, i, all[k]);
  }

  lemma FullMergedOf(files: Files, all: seq<Entry>, disk: Disk, budget: nat)
    requires Coherent(all) && RealHashes(disk) && forall k :: 0 <= k < |all| ==> all[k].sha == ""
    ensures forall a :: 0 <= a < |all| ==> FullOf(files, disk, all, budget, FullMerged(files, all, disk, budget)[a])
    ensures Coherent(FullMerged(files, all, disk, budget))
  {
    hide FullOf, FullMerged, FullValue;
    var current := FullMerged(files, all, disk, budget);
    forall a | 0 <= a < |all| ensures FullOf(files, disk, all, budget, current[a]) { FullSlot(files, all, disk, budget, a); }
    forall a, b | 0 <= a < b < |current| && current[a].path == current[b].path ensures current[a] == current[b] {
      FullOfUnique(files, disk, all, budget, current[a], current[b]);
    }
  }

  lemma FullOfUnique(files: Files, disk: Disk, all: seq<Entry>, budget: nat, c: Entry, d: Entry)
    requires Coherent(all) && FullOf(files, disk, all, budget, c) && FullOf(files, disk, all, budget, d) && c.path == d.path
    ensures c == d
  {
    var k :| 0 <= k < |all| && all[k].path == c.path && FullValue(files, disk, all, budget, all[k], c);
    ValueOfTwin(files, disk, all, budget, k, d);
  }

  lemma HashedKeepsSlot(files: Files, all: seq<Entry>, disk: Disk, budget: nat, i: nat) returns (a: nat)
    requires i < |all| && HashedAt(disk, all, budget, i)
    ensures a < |all| && FullMerged(files, all, disk, budget)[a].path == all[i].path
  {
    hide ByPath;
    var processed := Processed(all, budget);
    assert processed[i] == all[i];
    a := ReadableHas(disk, processed, i);
    assert Compacted(disk, all, budget)[a] == Hashed(disk, all, budget)[a];
  }

  /** A file whose slot the compaction has overwritten was tried and could not be read. */
  lemma OnlyUnreadableLost(files: Files, all: seq<Entry>, disk: Disk, budget: nat, i: nat)
    requires i < |all| && forall a :: 0 <= a < |all| ==> FullMerged(files, all, disk, budget)[a].path != all[i].path
    ensures all[i].path !in disk
  {
    hide ByPath;
    var r, processed, current := Hashed(disk, all, budget), Processed(all, budget), FullMerged(files, all, disk, budget);
    assert forall a :: 0 <= a < |all| ==> current[a].path == Compacted(disk, all, budget)[a].path;
    var compacted := Compacted(disk, all, budget);
    assert forall a :: |r| <= a < |all| ==> compacted[a] == all[a];
    assert i < |r| && processed[i] == all[i];
    if all[i].path in disk { var a := HashedKeepsSlot(files, all, disk, budget, i); }
  }

  lemma FullSettles(files: Files, all: seq<Entry>, disk: Disk, budget: nat, i: nat)
    requires Sound(files) && Coherent(all) && RealHashes(disk) && i < |all|
    requires forall k :: 0 <= k < |all| ==> all[k].sha == ""
    ensures Settled(CollectFull(files, all, disk, budget).files, disk, all[i],
                    all[i].path !in files && !HashedSlot(disk, all, budget, all[i].path))
  {
    var e, current := all[i], FullMerged(files, all, disk, budget);
    assert CollectFull(files, all, disk, budget).files == Updated(files, current);
    hide CollectFull, FullMerged, Updated, Settled, HashedSlot, FullValue, FullOf, Coherent, Sound;
    FullMergedOf(files, all, disk, budget);
    if a :| 0 <= a < |current| && current[a].path == e.path {
      ValueOfTwin(files, disk, all, budget, i, current[a]);
      SlotSettles(files, disk, all, budget, current, e, a);
    } else {
      UpdatedElsewhere(files, current, e.path);
      OnlyUnreadableLost(files, all, disk, budget, i);
      UnslottedSettles(files, disk, all, budget, Updated(files, current), e);
    }
  }

  lemma SlotSettles(files: Files, disk: Disk, all: seq<Entry>, budget: nat, current: seq<Entry>, e: Entry, a: nat)
    requires Sound(files) && RealHashes(disk) && Coherent(current) && a < |current| && e.sha == ""
    requires FullValue(files, disk, all, budget, e, current[a])
    ensures Settled(Updated(files, current), disk, e, e.path !in files && !HashedSlot(disk, all, budget, e.path))
  {
    hide Updated, Coherent;
    UpdatedAt(files, current, a);
  }

  lemma UnslottedSettles(files: Files, disk: Disk, all: seq<Entry>, budget: nat, next: Files, e: Entry)
    requires Sound(files) && e.path !in disk && (e.path in next <==> e.path in files)
    requires e.path in files ==> next[e.path] == files[e.path]
    ensures Settled(next, disk, e, e.path !in files && !HashedSlot(disk, all, budget, e.path))
  {
  }

  lemma {:induction false} OfClassOnly(files: Files, current: seq<Entry>, c: Class, p: string)
    requires p in Paths(OfClass(files, current, c))
    ensures exists i :: 0 <= i < |current| && current[i].path == p && Classify(files, current[i]) == c
  {
    var n := |current| - 1;
    hide Classify;
    PathsAppend(OfClass(files, Front(current), c), if Classify(files, current[n]) == c then [current[n]] else []);
    assert OfClass(files, current, c) == OfClass(files, Front(current), c) + if Classify(files, current[n]) == c then [current[n]] else [];
    if p in Paths(OfClass(files, Front(current), c)) {
      OfClassOnly(files, Front(current), c, p);
      var i :| 0 <= i < n && Front(current)[i].path == p && Classify(files, Front(current)[i]) == c;
      assert current[i] == Front(current)[i];
    } else {
      assert current[n].path == p && Classify(files, current[n]) == c;
    }
  }

  lemma NotOffered(files: Files, current: seq<Entry>, p: string)
    requires forall i :: 0 <= i < |current| && current[i].path == p ==> Classify(files, current[i]) == Unchanged
    ensures p !in Paths(Changed(files, current))
  {
    hide Classify;
    PathsAppend(OfClass(files, current, New), OfClass(files, current, Modified));
    if p in Paths(OfClass(files, current, New)) { OfClassOnly(files, current, New, p); }
    if p in Paths(OfClass(files, current, Modified)) { OfClassOnly(files, current, Modified, p); }
  }

  /**
   A change that a cycle does not hash is forgotten: the cycle does not offer the file, and the
   baseline takes the new size and mtime with the old hash, so that a later cycle, which could read
   it, does not offer it either.
   */
  lemma OverlookedStaysOverlooked(files: Files, all: seq<Entry>, disk: Disk, budget: nat,
                                  later: Disk, again: nat, content: map<string, string>, i: nat)
    requires Sound(files) && Coherent(all) && RealHashes(disk) && i < |all|
    requires forall k :: 0 <= k < |all| ==> all[k].sha == ""
    requires Overlooked(files, all, disk, budget, content, all[i])
    ensures var next, p := CollectIncremental(files, all, disk, budget).files, all[i].path;
      && p !in Paths(CollectIncremental(files, all, disk, budget).targets)
      && p in next && next[p].sha == files[p].sha != content[p] && !Stale(next, all[i])
      && p !in Paths(CollectIncremental(next, all, later, again).targets)
  {
    hide HashedNow, ByPath, Hashed;
    var next, p := CollectIncremental(files, all, disk, budget).files, all[i].path;
    LeftBehind(files, all, disk, budget, i);
    UnhashedNotOffered(files, all, disk, budget, i);
    assert !Stale(next, all[i]);
    NotStaleNotHashed(next, all, later, again, i);
    UnhashedNotOffered(next, all, later, again, i);
  }

  lemma NotStaleNotHashed(files: Files, all: seq<Entry>, disk: Disk, budget: nat, i: nat)
    requires Coherent(all) && i < |all| && !Stale(files, all[i])
    ensures !HashedNow(files, all, disk, budget, all[i].path)
  {
    hide ByPath, Hashed, HashedNow, Stale;
    IncrementalCurrent(files, all, disk, budget, i);
  }

  lemma UnhashedNotOffered(files: Files, all: seq<Entry>, disk: Disk, budget: nat, i: nat)
    requires Coherent(all) && i < |all| && !HashedNow(files, all, disk, budget, all[i].path)
    requires all[i].path in files && files[all[i].path].sha != ""
    ensures all[i].path !in Paths(CollectIncremental(files, all, disk, budget).targets)
  {
    hide ByPath, Hashed, HashedNow;
    var p, current := all[i].path, Current(files, ByPath(Hashed(disk, StaleOnes(files, all), budget)), all);
    forall k | 0 <= k < |current| && current[k].path == p ensures Classify(files, current[k]) == Unchanged {
      IncrementalCurrent(files, all, disk, budget, k);
    }
    NotOffered(files, current, p);
  }

  /**
   A stored cycle that was cancelled while hashing forgets the changes it did not reach: the new
   baseline has their new size and mtime with the old hash. Only a cycle without a vote is not stored.
   */
  lemma {:induction false} CancelledCycleForgets(cycles: seq<Cycle>, c: Cycle, content: map<string, string>, i: nat)
    requires (forall k :: 0 <= k < |cycles| ==> Plausible(cycles[k])) && Plausible(c) && Coherent(c.walked) && i < |c.walked|
    requires !c.full && !c.lost && c.persisted && c.voted && c.stored
    requires Overlooked(Stored(cycles), c.walked, c.disk, c.budget, content, c.walked[i])
    ensures var after, e := Stored(cycles + [c]), c.walked[i];
      && e.path !in Paths(TargetsOf(cycles + [c], |cycles|))
      && e.path in after && after[e.path].sha != content[e.path] && !Stale(after, e)
  {
    hide Stored, Overlooked, CollectIncremental;
    Provenance(cycles);
    StoredAppend(cycles, c);
    TargetsAppend(cycles, c);
    OverlookedStaysOverlooked(Stored(cycles), c.walked, c.disk, c.budget, c.disk, 0, content, i);
  }

  // ---- full mode: hashing in place under the list of all entries ----

  predicate HashedAt(disk: Disk, all: seq<Entry>, budget: nat, i: nat)
    requires i < |all|
  {
    i < budget && all[i].path in disk
  }

  /** The hashed entries come first: nothing unreadable stands before something readable. */
  predicate FailuresLast(disk: Disk, all: seq<Entry>, budget: nat) {
    forall i, j :: 0 <= i < j < |all| && HashedAt(disk, all, budget, j) ==> HashedAt(disk, all, budget, i)
  }

  predicate Unrepeated(ps: seq<string>) {
    forall i, j :: 0 <= i < j < |ps| ==> ps[i] != ps[j]
  }

  lemma {:induction false} ReadableFrom(disk: Disk, entries: seq<Entry>, j: nat) returns (i: nat)
    requires j < |Readable(disk, entries)|
    ensures i < |entries| && entries[i].path in disk
    ensures Readable(disk, entries)[j] == entries[i].(sha := disk[entries[i].path])
  {
    if j < |Readable(disk, Front(entries))| {
      i := ReadableFrom(disk, Front(entries), j);
    } else {
      i := |entries| - 1;
    }
  }

  lemma {:induction false} ReadableHas(disk: Disk, entries: seq<Entry>, i: nat) returns (j: nat)
    requires i < |entries| && entries[i].path in disk
    ensures j < |Readable(disk, entries)| && Readable(disk, entries)[j] == entries[i].(sha := disk[entries[i].path])
  {
    if i < |entries| - 1 {
      assert Front(entries)[i] == entries[i];
      j := ReadableHas(disk, Front(entries), i);
    } else {
      j := |Readable(disk, Front(entries))|;
    }
  }

  lemma {:induction false} ReadableAll(disk: Disk, entries: seq<Entry>)
    ensures |Readable(disk, entries)| == |entries| <==> forall i :: 0 <= i < |entries| ==> entries[i].path in disk
  {
    if entries != [] {
      assert forall i :: 0 <= i < |entries| - 1 ==> Front(entries)[i] == entries[i];
      ReadableAll(disk, Front(entries));
    }
  }

  lemma {:induction false} ReadableSkipsTail(disk: Disk, entries: seq<Entry>, k: nat)
    requires k <= |entries| && forall i :: k <= i < |entries| ==> entries[i].path !in disk
    ensures Readable(disk, entries) == Readable(disk, entries[..k])
  {
    if k < |entries| {
      assert Front(entries)[..k] == entries[..k];
      assert forall i :: k <= i < |entries| - 1 ==> Front(entries)[i] == entries[i];
      ReadableSkipsTail(disk, Front(entries), k);
    } else {
      assert entries[..k] == entries;
    }
  }

  function Processed(all: seq<Entry>, budget: nat): seq<Entry> {
    if budget < |all| then all[..budget] else all
  }

  /** Whether a readable entry still stands behind the compacted front. */
  lemma LeftoverReadable(disk: Disk, all: seq<Entry>, budget: nat)
    ensures var k := |Hashed(disk, all, budget)|;
      FailuresLast(disk, all, budget) <==> forall i :: k <= i < |all| ==> !HashedAt(disk, all, budget, i)
  {
    var processed := Processed(all, budget);
    var k := |Readable(disk, processed)|;
    assert forall i :: 0 <= i < |processed| ==> processed[i] == all[i];
    if forall i :: k <= i < |all| ==> !HashedAt(disk, all, budget, i) {
      assert forall i :: k <= i < |processed| ==> processed[i].path !in disk by {
        forall i | k <= i < |processed| ensures processed[i].path !in disk { assert !HashedAt(disk, all, budget, i); }
      }
      ReadableSkipsTail(disk, processed, k);
      ReadableAll(disk, processed[..k]);
      forall i | 0 <= i < k ensures HashedAt(disk, all, budget, i) { assert processed[..k][i] == all[i]; }
    } else if FailuresLast(disk, all, budget) {
      var i :| k <= i < |all| && HashedAt(disk, all, budget, i);
      var front := processed[..i + 1];
      forall j | 0 <= j < |front| ensures front[j].path in disk {
        assert HashedAt(disk, all, budget, j);
      }
      ReadableAll(disk, front);
      ReadablePrefix(disk, processed, i + 1);
    }
  }

  lemma {:induction false} ReadablePrefix(disk: Disk, entries: seq<Entry>, n: nat)
    requires n <= |entries|
    ensures |Readable(disk, entries[..n])| <= |Readable(disk, entries)|
  {
    if n < |entries| {
      assert Front(entries)[..n] == entries[..n];
      ReadablePrefix(disk, Front(entries), n);
    } else {
      assert entries[..n] == entries;
    }
  }

  predicate HashedName(current: seq<Entry>, p: string) {
    exists i :: 0 <= i < |current| && current[i].sha != "" && current[i].path == p
  }

  lemma {:induction false} WithHashNames(current: seq<Entry>, p: string)
    ensures p in Paths(WithHash(current)) <==> HashedName(current, p)
  {
    if current != [] {
      var front, e := Front(current), Last(current);
      WithHashNames(front, p);
      PathsAppend(WithHash(front), if e.sha != "" then [e] else []);
      assert Paths(WithHash(current)) == Paths(WithHash(front)) + if e.sha != "" then [e.path] else [];
      assert HashedName(current, p) <==> HashedName(front, p) || (e.sha != "" && e.path == p) by {
        assert forall i :: 0 <= i < |front| ==> front[i] == current[i];
        if HashedName(front, p) {
          var i :| 0 <= i < |front| && front[i].sha != "" && front[i].path == p;
          assert current[i].path == p;
        }
      }
    }
  }

  predicate NoTwoHashed(current: seq<Entry>) {
    forall i, j :: 0 <= i < j < |current| && current[i].sha != "" && current[j].sha != "" ==> current[i].path != current[j].path
  }

  lemma UnrepeatedAppend(ps: seq<string>, p: string)
    ensures Unrepeated(ps + [p]) <==> Unrepeated(ps) && p !in ps
  {
    var qs := ps + [p];
    assert forall i :: 0 <= i < |ps| ==> qs[i] == ps[i];
    assert qs[|ps|] == p;
  }

  lemma NoTwoHashedStep(current: seq<Entry>)
    requires current != []
    ensures NoTwoHashed(current) <==>
      NoTwoHashed(Front(current)) && (Last(current).sha != "" ==> !HashedName(Front(current), Last(current).path))
  {
    var front, e, n := Front(current), Last(current), |current| - 1;
    assert forall i :: 0 <= i < n ==> front[i] == current[i];
    if NoTwoHashed(current) {
      assert forall i :: 0 <= i < n && front[i].sha != "" && current[n].sha != "" ==> current[i].path != current[n].path;
    }
  }

  lemma {:induction false} WithHashUnrepeated(current: seq<Entry>)
    ensures Unrepeated(Paths(WithHash(current))) <==> NoTwoHashed(current)
  {
    if current != [] {
      var front, e := Front(current), Last(current);
      WithHashUnrepeated(front);
      NoTwoHashedStep(current);
      if e.sha != "" {
        WithHashNames(front, e.path);
        PathsAppend(WithHash(front), [e]);
        assert Paths([e]) == [e.path];
        UnrepeatedAppend(Paths(WithHash(front)), e.path);
      } else {
        assert WithHash(current) == WithHash(front);
      }
    }
  }

  /** Full mode offers the path: some slot of it was hashed, or the baseline knows a hash. */
  predicate Offered(files: Files, disk: Disk, all: seq<Entry>, budget: nat, p: string) {
    HashedSlot(disk, all, budget, p) || (p in files && files[p].sha != "")
  }

  /** No path that is offered was walked twice. */
  predicate OfferedOnce(files: Files, disk: Disk, all: seq<Entry>, budget: nat) {
    forall i, j :: 0 <= i < j < |all| && all[i].path == all[j].path ==> !Offered(files, disk, all, budget, all[i].path)
  }

  lemma HashedNames(disk: Disk, all: seq<Entry>, budget: nat, p: string)
    requires RealHashes(disk)
    ensures var m := ByPath(Hashed(disk, all, budget));
      && (p in m <==> HashedSlot(disk, all, budget, p))
      && (p in m ==> m[p].path == p && m[p].sha != "")
  {
    var processed := Processed(all, budget);
    ByPathNames(disk, processed, p);
    assert forall i :: 0 <= i < |processed| ==> processed[i] == all[i];
    if i :| 0 <= i < |processed| && processed[i].path == p && p in disk { assert HashedAt(disk, all, budget, i); }
    if h :| 0 <= h < |all| && HashedAt(disk, all, budget, h) && all[h].path == p { assert processed[h].path == p; }
  }

  /** Each entry of full mode's merged list: the compacted front is hashed, what stands behind is as walked. */
  lemma FullCurrent(files: Files, all: seq<Entry>, disk: Disk, budget: nat, i: nat)
    requires RealHashes(disk) && i < |all| && forall k :: 0 <= k < |all| ==> all[k].sha == ""
    ensures var hashed, e := Hashed(disk, all, budget),
        Current(files, ByPath(Hashed(disk, all, budget)), Compacted(disk, all, budget))[i];
      if i < |hashed| then e.path == hashed[i].path && e.sha != "" && Offered(files, disk, all, budget, e.path)
      else e.path == all[i].path && (e.sha != "" <==> Offered(files, disk, all, budget, e.path))
  {
    hide ByPath;
    var processed, hashed := Processed(all, budget), Hashed(disk, all, budget);
    var p := Compacted(disk, all, budget)[i].path;
    HashedNames(disk, all, budget, p);
    if i < |hashed| {
      var a := ReadableFrom(disk, processed, i);
      assert all[a] == processed[a] && HashedAt(disk, all, budget, a);
    }
  }

  lemma {:induction false} AllReadable(disk: Disk, entries: seq<Entry>)
    requires forall i :: 0 <= i < |entries| ==> entries[i].path in disk
    ensures Paths(Readable(disk, entries)) == Paths(entries)
  {
    if entries != [] {
      assert forall i :: 0 <= i < |entries| - 1 ==> Front(entries)[i] == entries[i];
      AllReadable(disk, Front(entries));
    }
  }

  /** When the failures come last, compaction leaves every path in its place. */
  lemma FrontInPlace(disk: Disk, all: seq<Entry>, budget: nat, i: nat)
    requires FailuresLast(disk, all, budget) && i < |Hashed(disk, all, budget)|
    ensures Hashed(disk, all, budget)[i].path == all[i].path
  {
    var processed, hashed := Processed(all, budget), Hashed(disk, all, budget);
    var k := |hashed|;
    assert forall i :: 0 <= i < |processed| ==> processed[i] == all[i];
    LeftoverReadable(disk, all, budget);
    forall i | k <= i < |processed| ensures processed[i].path !in disk { assert !HashedAt(disk, all, budget, i); }
    ReadableSkipsTail(disk, processed, k);
    ReadableAll(disk, processed[..k]);
    AllReadable(disk, processed[..k]);
    assert Paths(hashed)[i] == Paths(processed[..k])[i];
  }

  /** A walked entry of this path stands behind the front that the compaction has written. */
  predicate StandsBehind(disk: Disk, all: seq<Entry>, budget: nat, p: string) {
    exists i :: |Hashed(disk, all, budget)| <= i < |all| && all[i].path == p
  }

  /**
   What full mode offers, exactly: the paths it hashed, and of the known ones it did not hash those
   that stand behind the compacted front. A known file that could not be read is lost from the
   targets when the compaction writes over its place.
   */
  lemma FullTargetsExactly(files: Files, all: seq<Entry>, disk: Disk, budget: nat, p: string)
    requires RealHashes(disk) && forall i :: 0 <= i < |all| ==> all[i].sha == ""
    ensures p in Paths(CollectFull(files, all, disk, budget).targets) <==>
      || HashedSlot(disk, all, budget, p)
      || (p in files && files[p].sha != "" && StandsBehind(disk, all, budget, p))
  {
    hide ByPath, HashedSlot;
    var hashed := Hashed(disk, all, budget);
    var current := FullMerged(files, all, disk, budget);
    WithHashNames(current, p);
    if i :| 0 <= i < |current| && current[i].sha != "" && current[i].path == p {
      FullCurrent(files, all, disk, budget, i);
      SlotOrKnown(files, all, disk, budget, i);
    }
    if HashedSlot(disk, all, budget, p) {
      SlotIsOffered(files, all, disk, budget, p);
    } else if p in files && files[p].sha != "" && StandsBehind(disk, all, budget, p) {
      var i :| |hashed| <= i < |all| && all[i].path == p;
      FullCurrent(files, all, disk, budget, i);
      assert Offered(files, disk, all, budget, p);
    }
  }

  lemma SlotOrKnown(files: Files, all: seq<Entry>, disk: Disk, budget: nat, i: nat)
    requires RealHashes(disk) && i < |all| && forall k :: 0 <= k < |all| ==> all[k].sha == ""
    requires FullMerged(files, all, disk, budget)[i].sha != ""
    ensures var p := FullMerged(files, all, disk, budget)[i].path;
      || HashedSlot(disk, all, budget, p)
      || (p in files && files[p].sha != "" && StandsBehind(disk, all, budget, p))
  {
    hide ByPath;
    var p := FullMerged(files, all, disk, budget)[i].path;
    FullCurrent(files, all, disk, budget, i);
    HashedNames(disk, all, budget, p);
    if i < |Hashed(disk, all, budget)| {
      var a := ReadableFrom(disk, Processed(all, budget), i);
      assert HashedAt(disk, all, budget, a) && all[a].path == p;
    } else {
      assert all[i].path == p;
    }
  }

  lemma SlotIsOffered(files: Files, all: seq<Entry>, disk: Disk, budget: nat, p: string)
    requires RealHashes(disk) && HashedSlot(disk, all, budget, p) && forall k :: 0 <= k < |all| ==> all[k].sha == ""
    ensures HashedName(FullMerged(files, all, disk, budget), p)
  {
    hide ByPath;
    var processed, current := Processed(all, budget), FullMerged(files, all, disk, budget);
    var h :| 0 <= h < |all| && HashedAt(disk, all, budget, h) && all[h].path == p;
    assert processed[h] == all[h];
    var j := ReadableHas(disk, processed, h);
    FullCurrent(files, all, disk, budget, j);
    assert current[j].path == p && current[j].sha != "";
  }

  /**
   In full mode no target is named twice, if and only if no unreadable file precedes a readable
   one, since the in-place compaction leaves the readable entry in its old place as well, and no
   path that is offered was walked twice, as overlapping roots make happen.
   */
  lemma FullTargetsUnrepeated(files: Files, all: seq<Entry>, disk: Disk, budget: nat)
    requires RealHashes(disk) && forall i :: 0 <= i < |all| ==> all[i].sha == ""
    ensures Unrepeated(Paths(CollectFull(files, all, disk, budget).targets))
       <==> FailuresLast(disk, all, budget) && OfferedOnce(files, disk, all, budget)
  {
    hide Hashed, ByPath, Offered;
    var hashed := Hashed(disk, all, budget);
    var current := Current(files, ByPath(hashed), Compacted(disk, all, budget));
    WithHashUnrepeated(current);
    forall i | 0 <= i < |all|
      ensures FailuresLast(disk, all, budget) ==>
        current[i].path == all[i].path && (current[i].sha != "" <==> Offered(files, disk, all, budget, all[i].path))
    {
      FullCurrent(files, all, disk, budget, i);
      if FailuresLast(disk, all, budget) && i < |hashed| { FrontInPlace(disk, all, budget, i); }
    }
    if !FailuresLast(disk, all, budget) { LeftoverRepeats(files, all, disk, budget); }
  }

  lemma LeftoverRepeats(files: Files, all: seq<Entry>, disk: Disk, budget: nat)
    requires RealHashes(disk) && (forall i :: 0 <= i < |all| ==> all[i].sha == "") && !FailuresLast(disk, all, budget)
    ensures !NoTwoHashed(Current(files, ByPath(Hashed(disk, all, budget)), Compacted(disk, all, budget)))
  {
    var processed := Processed(all, budget);
    assert forall i :: 0 <= i < |processed| ==> processed[i] == all[i];
    LeftoverReadable(disk, all, budget);
    var j :| |Hashed(disk, all, budget)| <= j < |all| && HashedAt(disk, all, budget, j);
    var i := ReadableHas(disk, processed, j);
    FullCurrent(files, all, disk, budget, i);
    FullCurrent(files, all, disk, budget, j);
    assert Offered(files, disk, all, budget, all[j].path);
  }
}
